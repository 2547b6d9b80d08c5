/** ACARS framing over whole runs, and the block check (src/apps/ui_acars_rx.hpp). */
module AcarsLink {
  import opened Bits
  import opened Acars
  import Crc16

  // ----- characters on the wire

  /** The eight bits of a character in the configured order. */
  function Wire(order: Order, o: Octet): (r: seq<bool>)
    ensures |r| == 8
  {
    if order == MsbFirst then MsbBits(o.v) else LsbBits(o.v)
  }

  function WireAll(order: Order, octets: seq<Octet>): seq<bool> {
    if octets == [] then [] else WireAll(order, octets[..|octets| - 1]) + Wire(order, octets[|octets| - 1])
  }

  lemma EightIn(order: Order, o: Octet)
    ensures var s := Wire(order, o);
            ShiftIn(order, ShiftIn(order, ShiftIn(order, ShiftIn(order, ShiftIn(order, ShiftIn(order, ShiftIn(order, ShiftIn(order,
              NUL, s[0]), s[1]), s[2]), s[3]), s[4]), s[5]), s[6]), s[7]) == o
  {
    if order == MsbFirst {
      MsbIn(o.v);
    } else {
      LsbIn(o.v);
    }
    hide ShiftLeft, ShiftRight, MsbBits, LsbBits;
  }

  lemma MsbIn(b: byte)
    ensures var s := MsbBits(b);
            ShiftLeft(ShiftLeft(ShiftLeft(ShiftLeft(ShiftLeft(ShiftLeft(ShiftLeft(ShiftLeft(
              0, s[0]), s[1]), s[2]), s[3]), s[4]), s[5]), s[6]), s[7]) == b
  {
  }

  lemma LsbIn(b: byte)
    ensures var s := LsbBits(b);
            ShiftRight(ShiftRight(ShiftRight(ShiftRight(ShiftRight(ShiftRight(ShiftRight(ShiftRight(
              0, s[0]), s[1]), s[2]), s[3]), s[4]), s[5]), s[6]), s[7]) == b
  {
  }

  /** Between characters. */
  predicate Ready(d: Decoder) { d.bitCount == 0 && d.data == NUL }

  lemma OneBit(d: Decoder, t: Decoder, s: seq<bool>, n: nat) returns (u: Decoder)
    requires n < 7 && n < |s| && t == Run(d, s[..n]) && t.bitCount == n
    ensures u == Run(d, s[..n + 1]) && u == t.(data := ShiftIn(t.order, t.data, s[n]), bitCount := n + 1)
  {
    hide ShiftIn, TakeOctet, Run;
    assert s[..n + 1] == s[..n] + [s[n]];
    RunPush(d, s[..n], s[n]);
    u := Feed(t, s[n]);
  }

  /** Eight bits make their character. */
  lemma OctetRun(d: Decoder, o: Octet)
    requires Ready(d)
    ensures Run(d, Wire(d.order, o)) == TakeOctet(d.(data := o, bitCount := 8))
  {
    hide ShiftIn, TakeOctet, Run, Wire, NUL;
    var s := Wire(d.order, o);
    NothingFed(d);
    assert s[..0] == [];
    var t1 := OneBit(d, d, s, 0);
    var t2 := OneBit(d, t1, s, 1);
    var t3 := OneBit(d, t2, s, 2);
    var t4 := OneBit(d, t3, s, 3);
    var t5 := OneBit(d, t4, s, 4);
    var t6 := OneBit(d, t5, s, 5);
    var t7 := OneBit(d, t6, s, 6);
    assert s == s[..7] + [s[7]];
    RunPush(d, s[..7], s[7]);
    EightIn(d.order, o);
  }

  lemma NothingFed(d: Decoder)
    ensures Run(d, []) == d
  {
  }

  lemma WirePush(order: Order, octets: seq<Octet>, o: Octet)
    ensures WireAll(order, octets + [o]) == WireAll(order, octets) + Wire(order, o)
  {
    assert (octets + [o])[..|octets|] == octets;
  }

  lemma {:induction false} WireAppend(order: Order, a: seq<Octet>, b: seq<Octet>)
    ensures WireAll(order, a + b) == WireAll(order, a) + WireAll(order, b)
    decreases |b|
  {
    hide Wire;
    if b == [] {
      assert a + b == a;
    } else {
      var n := |b| - 1;
      assert (a + b)[..|a| + n] == a + b[..n];
      WireAppend(order, a, b[..n]);
    }
  }

  // ----- parity

  /** How many of some bits are set. */
  function Ones(s: seq<bool>): nat { if s == [] then 0 else Ones(s[..|s| - 1]) + if s[|s| - 1] then 1 else 0 }

  /** A character with an even number of ones. */
  predicate IsBad(c: Octet) { Ones(LsbBits(c.v)) % 2 == 0 }

  lemma OnesOfEight(s: seq<bool>)
    requires |s| == 8
    ensures Ones(s) == One(s[0]) + One(s[1]) + One(s[2]) + One(s[3]) + One(s[4]) + One(s[5]) + One(s[6]) + One(s[7])
  {
    assert s[..7][..6] == s[..6] && s[..6][..5] == s[..5] && s[..5][..4] == s[..4];
    assert s[..4][..3] == s[..3] && s[..3][..2] == s[..2] && s[..2][..1] == s[..1] && s[..1][..0] == [];
    assert Ones(s[..1]) == One(s[0]);
    assert Ones(s[..2]) == One(s[0]) + One(s[1]);
    assert Ones(s[..4]) == Ones(s[..2]) + One(s[2]) + One(s[3]);
    assert Ones(s[..6]) == Ones(s[..4]) + One(s[4]) + One(s[5]);
  }

  /** The parity test counts the ones. */
  lemma ParityIsOnes(c: Octet)
    ensures ParityOk(c) <==> !IsBad(c)
  {
    OnesOfEight(LsbBits(c.v));
  }

  lemma TerminatorsAreGood()
    ensures ParityOk(Octet(0x83)) && ParityOk(Octet(0x97)) && ParityOk(Octet(0x7F))
  {
  }

  function Bad(text: seq<Octet>): nat {
    if text == [] then 0 else Bad(text[..|text| - 1]) + if IsBad(text[|text| - 1]) then 1 else 0
  }

  lemma {:induction false} BadGrows(text: seq<Octet>, n: nat)
    requires n <= |text|
    ensures Bad(text[..n]) <= Bad(text)
    decreases |text|
  {
    hide IsBad;
    if n < |text| {
      assert text[..|text| - 1][..n] == text[..n];
      BadGrows(text[..|text| - 1], n);
    } else {
      assert text[..n] == text;
    }
  }

  // ----- hunting for the first SYN

  /** A shift register behind some bits. */
  function Folded(order: Order, x: Octet, s: seq<bool>): Octet {
    if s == [] then x else ShiftIn(order, Folded(order, x, s[..|s| - 1]), s[|s| - 1])
  }

  lemma {:induction false} FoldedAppend(order: Order, x: Octet, a: seq<bool>, b: seq<bool>)
    ensures Folded(order, x, a + b) == Folded(order, Folded(order, x, a), b)
    decreases |b|
  {
    hide ShiftIn;
    if b == [] {
      assert a + b == a;
    } else {
      var n := |b| - 1;
      assert (a + b)[..|a| + n] == a + b[..n];
      FoldedAppend(order, x, a, b[..n]);
    }
  }

  lemma EightFolded(order: Order, x: Octet, s: seq<bool>)
    requires |s| == 8
    ensures Folded(order, x, s) ==
            ShiftIn(order, ShiftIn(order, ShiftIn(order, ShiftIn(order, ShiftIn(order, ShiftIn(order, ShiftIn(order, ShiftIn(order,
              x, s[0]), s[1]), s[2]), s[3]), s[4]), s[5]), s[6]), s[7])
  {
    hide ShiftIn;
    assert s[..7][..6] == s[..6] && s[..6][..5] == s[..5] && s[..5][..4] == s[..4];
    assert s[..4][..3] == s[..3] && s[..3][..2] == s[..2] && s[..2][..1] == s[..1] && s[..1][..0] == [];
    assert Folded(order, x, s[..1]) == ShiftIn(order, x, s[0]);
    assert Folded(order, x, s[..2]) == ShiftIn(order, ShiftIn(order, x, s[0]), s[1]);
    assert Folded(order, x, s[..4]) == ShiftIn(order, ShiftIn(order, Folded(order, x, s[..2]), s[2]), s[3]);
    assert Folded(order, x, s[..6]) == ShiftIn(order, ShiftIn(order, Folded(order, x, s[..4]), s[4]), s[5]);
  }

  lemma LeftForgets(x: byte, a: bool, b: bool, c: bool, d: bool, e: bool, f: bool, g: bool, h: bool)
    ensures ShiftLeft(ShiftLeft(ShiftLeft(ShiftLeft(ShiftLeft(ShiftLeft(ShiftLeft(ShiftLeft(x, a), b), c), d), e), f), g), h) ==
            ShiftLeft(ShiftLeft(ShiftLeft(ShiftLeft(ShiftLeft(ShiftLeft(ShiftLeft(ShiftLeft(0, a), b), c), d), e), f), g), h)
  {
  }

  lemma RightForgets(x: byte, a: bool, b: bool, c: bool, d: bool, e: bool, f: bool, g: bool, h: bool)
    ensures ShiftRight(ShiftRight(ShiftRight(ShiftRight(ShiftRight(ShiftRight(ShiftRight(ShiftRight(x, a), b), c), d), e), f), g), h)
         == ShiftRight(ShiftRight(ShiftRight(ShiftRight(ShiftRight(ShiftRight(ShiftRight(ShiftRight(0, a), b), c), d), e), f), g), h)
  {
  }

  /** Eight bits push out whatever was there. */
  lemma EightForget(order: Order, x: Octet, s: seq<bool>)
    requires |s| == 8
    ensures Folded(order, x, s) == Folded(order, NUL, s)
  {
    hide Folded, ShiftLeft, ShiftRight;
    EightFolded(order, x, s);
    EightFolded(order, NUL, s);
    if order == MsbFirst {
      LeftForgets(x.v, s[0], s[1], s[2], s[3], s[4], s[5], s[6], s[7]);
    } else {
      RightForgets(x.v, s[0], s[1], s[2], s[3], s[4], s[5], s[6], s[7]);
    }
  }

  lemma LastEight(order: Order, s: seq<bool>)
    requires |s| >= 8
    ensures Folded(order, NUL, s) == Folded(order, NUL, s[|s| - 8..])
  {
    hide Folded;
    var front, last := s[..|s| - 8], s[|s| - 8..];
    assert s == front + last;
    FoldedAppend(order, NUL, front, last);
    EightForget(order, Folded(order, NUL, front), last);
  }

  lemma WireFolds(order: Order, o: Octet)
    ensures Folded(order, NUL, Wire(order, o)) == o
  {
    hide Folded, ShiftIn, Wire;
    EightFolded(order, NUL, Wire(order, o));
    EightIn(order, o);
  }

  /** The eight bits in front of place `i` are a SYN. */
  predicate SynEnds(order: Order, s: seq<bool>, i: nat)
    requires 8 <= i <= |s|
  {
    s[i - 8..i] == Wire(order, Octet(0x16))
  }

  lemma SynEndsIff(order: Order, s: seq<bool>)
    requires |s| >= 8
    ensures Folded(order, NUL, s) == Octet(0x16) <==> SynEnds(order, s, |s|)
  {
    hide Folded, Wire;
    var w := s[|s| - 8..];
    assert s[|s| - 8..|s|] == w;
    LastEight(order, s);
    WireFolds(order, Octet(0x16));
    FoldTells(order, w);
  }

  lemma LeftTells(a: bool, b: bool, c: bool, d: bool, e: bool, f: bool, g: bool, h: bool)
    ensures MsbBits(ShiftLeft(ShiftLeft(ShiftLeft(ShiftLeft(ShiftLeft(ShiftLeft(ShiftLeft(ShiftLeft(0, a), b), c), d), e), f), g), h))
            == [a, b, c, d, e, f, g, h]
  {
  }

  lemma RightTells(a: bool, b: bool, c: bool, d: bool, e: bool, f: bool, g: bool, h: bool)
    ensures LsbBits(ShiftRight(ShiftRight(ShiftRight(ShiftRight(ShiftRight(ShiftRight(ShiftRight(ShiftRight(0, a), b), c), d), e), f), g), h))
            == [a, b, c, d, e, f, g, h]
  {
  }

  lemma WireTells(order: Order, a: bool, b: bool, c: bool, d: bool, e: bool, f: bool, g: bool, h: bool)
    ensures Wire(order, ShiftIn(order, ShiftIn(order, ShiftIn(order, ShiftIn(order, ShiftIn(order, ShiftIn(order, ShiftIn(order,
              ShiftIn(order, NUL, a), b), c), d), e), f), g), h)) == [a, b, c, d, e, f, g, h]
  {
    if order == MsbFirst {
      LeftTells(a, b, c, d, e, f, g, h);
    } else {
      RightTells(a, b, c, d, e, f, g, h);
    }
    hide ShiftLeft, ShiftRight, MsbBits, LsbBits;
  }

  /** Eight bits are read back from their character. */
  lemma FoldTells(order: Order, s: seq<bool>)
    requires |s| == 8
    ensures Wire(order, Folded(order, NUL, s)) == s
  {
    hide Folded, ShiftIn, Wire;
    EightFolded(order, NUL, s);
    WireTells(order, s[0], s[1], s[2], s[3], s[4], s[5], s[6], s[7]);
  }

  /** As long as no eight bits in a row are a SYN, the decoder keeps the newest eight. */
  lemma {:induction false} Hunting(d: Decoder, s: seq<bool>)
    requires Waiting(d) && forall i :: 8 <= i <= |s| ==> !SynEnds(d.order, s, i)
    ensures Run(d, s) == d.(data := Folded(d.order, NUL, s), bitCount := if |s| < 7 then |s| else 7)
    decreases |s|
  {
    hide ShiftIn, SynEnds;
    if s != [] {
      var n := |s| - 1;
      forall i | 8 <= i <= n
        ensures !SynEnds(d.order, s[..n], i)
      {
        SameWindow(d.order, s, n, i);
      }
      Hunting(d, s[..n]);
      if |s| >= 8 {
        SynEndsIff(d.order, s);
      }
    }
  }

  lemma SameWindow(order: Order, s: seq<bool>, n: nat, i: nat)
    requires 8 <= i <= n <= |s|
    ensures SynEnds(order, s[..n], i) == SynEnds(order, s, i)
  {
    hide Wire;
    assert s[..n][i - 8..i] == s[i - 8..i];
  }

  /** No SYN, at any bit offset, in front of the one behind the noise. */
  predicate Quiet(order: Order, noise: seq<bool>) {
    var s := noise + Wire(order, Octet(0x16));
    forall i :: 8 <= i < |s| ==> !SynEnds(order, s, i)
  }

  lemma NoNoiseIsQuiet(order: Order)
    ensures Quiet(order, [])
  {
  }

  /** The first SYN is found at whatever bit it begins. */
  lemma SynFound(d: Decoder, noise: seq<bool>)
    requires Waiting(d) && Quiet(d.order, noise)
    ensures Run(d, noise + Wire(d.order, Octet(0x16))) == d.(state := Syn2)
  {
    hide Wire, SynEnds, ShiftIn;
    var s := noise + Wire(d.order, Octet(0x16));
    var n := |s| - 1;
    forall i | 8 <= i <= n
      ensures !SynEnds(d.order, s[..n], i)
    {
      SameWindow(d.order, s, n, i);
    }
    Hunting(d, s[..n]);
    SynIsLast(d.order, noise);
    SynEndsIff(d.order, s);
  }

  lemma SynIsLast(order: Order, noise: seq<bool>)
    ensures var s := noise + Wire(order, Octet(0x16)); SynEnds(order, s, |s|)
  {
    hide Wire;
  }

  // ----- blocks

  /** What a sender puts on the air: text up to a terminator with the check octets behind it, or text with the check octets
      at its end, closed by a DEL; and one octet more. */
  datatype Sent =
    | Ended(text: seq<Octet>, terminator: Octet, crcHigh: Octet, crcLow: Octet, trailer: Octet)
    | Deleted(text: seq<Octet>, crcHigh: Octet, crcLow: Octet, trailer: Octet)

  /** What the decoder collects as text. */
  function Collected(b: Sent): seq<Octet> { if b.Ended? then b.text else b.text + [b.crcHigh, b.crcLow] }

  /** Neither terminator, nor a DEL where it would close a block: behind twenty characters. */
  predicate TextChars(text: seq<Octet>) {
    forall i :: 0 <= i < |text| ==>
      text[i] != Octet(0x83) && text[i] != Octet(0x97) && (text[i] == Octet(0x7F) ==> i < 20)
  }

  /** At most 240 characters, no more than four of them with wrong parity. */
  predicate WellFormed(b: Sent) {
    && TextChars(Collected(b)) && Bad(Collected(b)) <= 4
    && match b
       case Ended(text, terminator, _, _, _) => |text| <= 240 && (terminator == Octet(0x83) || terminator == Octet(0x97))
       case Deleted(text, _, _, _) => 18 <= |text| <= 237
  }

  function SentOctets(b: Sent): seq<Octet> {
    [Octet(0x16), Octet(0x16), Octet(0x01)] + Collected(b) +
    match b
    case Ended(_, terminator, crcHigh, crcLow, trailer) => [terminator, crcHigh, crcLow, trailer]
    case Deleted(_, _, _, trailer) => [Octet(0x7F), trailer]
  }

  /** What the handler is to get. */
  function Received(b: Sent): Block {
    Block(if b.Ended? then b.text + [b.terminator] else b.text, b.crcHigh, b.crcLow, Bad(Collected(b)))
  }

  /** Waiting for a block. */
  predicate Waiting(d: Decoder) { Ready(d) && d.state == WaitSyn }

  /** Between blocks: nothing is held. */
  predicate Clean(d: Decoder) { Waiting(d) && d == Reset(d) }

  /** One more character: `t` is the decoder behind the bits so far. */
  lemma Step(d: Decoder, bits: seq<bool>, t: Decoder, o: Octet) returns (u: Decoder)
    requires t == Run(d, bits) && Ready(t) && t.order == d.order
    ensures u == TakeOctet(t.(data := o, bitCount := 8)) && u == Run(d, bits + Wire(d.order, o))
  {
    hide Run, TakeOctet, Wire;
    RunAppend(d, bits, Wire(d.order, o));
    OctetRun(t, o);
    u := TakeOctet(t.(data := o, bitCount := 8));
  }

  function HeaderBits(order: Order, noise: seq<bool>): seq<bool> {
    noise + Wire(order, Octet(0x16)) + Wire(order, Octet(0x16)) + Wire(order, Octet(0x01))
  }

  lemma HeaderRun(d: Decoder, noise: seq<bool>) returns (u: Decoder)
    requires Waiting(d) && Quiet(d.order, noise)
    ensures u == Run(d, HeaderBits(d.order, noise)) && u == Reset(d).(state := Text)
  {
    hide Run, Wire, Quiet;
    SynFound(d, noise);
    var bits := noise + Wire(d.order, Octet(0x16));
    var b := Step(d, bits, d.(state := Syn2), Octet(0x16));
    u := Step(d, bits + Wire(d.order, Octet(0x16)), b, Octet(0x01));
  }

  lemma NoWire(order: Order)
    ensures WireAll(order, []) == []
  {
  }

  predicate Collecting(t: Decoder, text: seq<Octet>) {
    t.state == Text && Ready(t) && t.message == text && t.parityErrors == Bad(text)
  }

  /** A text character is collected and its parity counted. */
  lemma TextTaken(t: Decoder, text: seq<Octet>, c: Octet)
    requires Collecting(t, text) && TextChars(text + [c]) && Bad(text + [c]) <= 4 && |text| < 240
    ensures TakeOctet(t.(data := c, bitCount := 8)) == t.(message := text + [c], parityErrors := Bad(text + [c]))
  {
    hide ParityOk, IsBad;
    ParityIsOnes(c);
    assert (text + [c])[..|text|] == text && (text + [c])[|text|] == c;
  }

  lemma {:induction false} TextRun(d: Decoder, s: Decoder, bits: seq<bool>, text: seq<Octet>) returns (u: Decoder)
    requires s == Run(d, bits) && s.order == d.order && Collecting(s, [])
    requires |text| <= 240 && TextChars(text) && Bad(text) <= 4
    ensures u == Run(d, bits + WireAll(d.order, text)) && u == s.(message := text, parityErrors := Bad(text))
    decreases |text|
  {
    hide Run, TakeOctet, Wire, TextChars, IsBad;
    if text == [] {
      NoWire(d.order);
      assert bits + [] == bits;
      u := s;
    } else {
      var n := |text| - 1;
      TextFront(text, n);
      BadGrows(text, n);
      var t := TextRun(d, s, bits, text[..n]);
      u := Step(d, bits + WireAll(d.order, text[..n]), t, text[n]);
      assert text[..n] + [text[n]] == text;
      TextTaken(t, text[..n], text[n]);
      assert bits + WireAll(d.order, text[..n]) + Wire(d.order, text[n]) == bits + WireAll(d.order, text);
    }
  }

  lemma TextFront(text: seq<Octet>, n: nat)
    requires n <= |text| && TextChars(text)
    ensures TextChars(text[..n])
  {
  }

  lemma TerminatorTaken(t: Decoder, text: seq<Octet>, c: Octet)
    requires Collecting(t, text) && (c == Octet(0x83) || c == Octet(0x97)) && |text| <= 240 && Bad(text) <= 4
    ensures TakeOctet(t.(data := c, bitCount := 8)) == t.(message := text + [c], state := Crc1)
  {
    hide ParityOk;
    TerminatorsAreGood();
  }

  lemma LastThree(text: seq<Octet>, high: Octet, low: Octet, c: Octet)
    ensures var m := text + [high, low] + [c];
            |m| == |text| + 3 && m[|text|] == high && m[|text| + 1] == low && m[..|text|] == text
  {
  }

  lemma DelMoves(t: Decoder, m: seq<Octet>)
    requires t.state == Text && Ready(t) && m == t.message + [Octet(0x7F)] && 21 <= |m| <= 240 && t.parityErrors <= 4
    ensures var n := |m| - 3;
            TakeOctet(t.(data := Octet(0x7F), bitCount := 8)) ==
            Cleared(Reset(t).(state := End, emitted := t.emitted + [Block(m[..n], m[n], m[n + 1], t.parityErrors)]))
  {
    hide ParityOk;
    TerminatorsAreGood();
  }

  /** A DEL behind more than nineteen characters takes the two in front of it for the check octets. */
  lemma DelTaken(t: Decoder, text: seq<Octet>, high: Octet, low: Octet)
    requires Collecting(t, text + [high, low]) && 18 <= |text| <= 237 && Bad(text + [high, low]) <= 4
    ensures TakeOctet(t.(data := Octet(0x7F), bitCount := 8)) ==
            Cleared(Reset(t).(state := End, emitted := t.emitted + [Block(text, high, low, Bad(text + [high, low]))]))
  {
    hide TakeOctet, Bad;
    LastThree(text, high, low, Octet(0x7F));
    DelMoves(t, text + [high, low] + [Octet(0x7F)]);
  }

  /** One block, behind any noise without a SYN in it: emitted once, as sent, with the count of its bad characters, and the
      decoder waits for the next. */
  lemma BlockRun(d: Decoder, noise: seq<bool>, b: Sent)
    requires Waiting(d) && Quiet(d.order, noise) && WellFormed(b)
    ensures var u := Run(d, noise + WireAll(d.order, SentOctets(b)));
            Clean(u) && u.order == d.order && u.emitted == d.emitted + [Received(b)]
  {
    hide Run, WireAll, TextChars, Quiet, Wire, IsBad, Bad;
    NothingBad();
    var head := HeaderBits(d.order, noise);
    var s := HeaderRun(d, noise);
    var text := Collected(b);
    var t := TextRun(d, s, head, text);
    var bits := head + WireAll(d.order, text);
    match b
    case Ended(_, terminator, crcHigh, crcLow, trailer) =>
      TerminatorTaken(t, text, terminator);
      var c := Step(d, bits, t, terminator);
      bits := bits + Wire(d.order, terminator);
      var e := Step(d, bits, c, crcHigh);
      bits := bits + Wire(d.order, crcHigh);
      assert e == c.(crcHigh := crcHigh, state := Crc2);
      var f := Step(d, bits, e, crcLow);
      bits := bits + Wire(d.order, crcLow);
      assert Ready(f) && f.state == End && f.emitted == d.emitted + [Received(b)];
      var g := Step(d, bits, f, trailer);
      EndedBits(d.order, noise, b);
    case Deleted(_, crcHigh, crcLow, trailer) =>
      DelTaken(t, b.text, crcHigh, crcLow);
      var f := Step(d, bits, t, Octet(0x7F));
      bits := bits + Wire(d.order, Octet(0x7F));
      var g := Step(d, bits, f, trailer);
      DeletedBits(d.order, noise, b);
  }

  lemma NothingBad()
    ensures Bad([]) == 0
  {
  }

  lemma TwoOnWire(order: Order, a: Octet, b: Octet)
    ensures WireAll(order, [a, b]) == Wire(order, a) + Wire(order, b)
  {
    hide Wire;
    WirePush(order, [a], b);
    WirePush(order, [], a);
    NoWire(order);
    assert [a, b] == [a] + [b] && [a] == [] + [a];
  }

  lemma FourOnWire(order: Order, a: Octet, b: Octet, c: Octet, e: Octet)
    ensures WireAll(order, [a, b, c, e]) == Wire(order, a) + Wire(order, b) + Wire(order, c) + Wire(order, e)
  {
    hide Wire, WireAll;
    assert [a, b, c, e] == [a, b] + [c, e];
    WireAppend(order, [a, b], [c, e]);
    TwoOnWire(order, a, b);
    TwoOnWire(order, c, e);
  }

  lemma HeaderOnWire(order: Order, noise: seq<bool>)
    ensures noise + WireAll(order, [Octet(0x16), Octet(0x16), Octet(0x01)]) == HeaderBits(order, noise)
  {
    hide Wire, WireAll;
    TwoOnWire(order, Octet(0x16), Octet(0x16));
    WirePush(order, [Octet(0x16), Octet(0x16)], Octet(0x01));
    assert [Octet(0x16), Octet(0x16), Octet(0x01)] == [Octet(0x16), Octet(0x16)] + [Octet(0x01)];
  }

  lemma PartsOnWire(order: Order, noise: seq<bool>, text: seq<Octet>, tail: seq<Octet>)
    ensures noise + WireAll(order, [Octet(0x16), Octet(0x16), Octet(0x01)] + text + tail) ==
            HeaderBits(order, noise) + WireAll(order, text) + WireAll(order, tail)
  {
    hide Wire, WireAll, HeaderBits;
    var head := [Octet(0x16), Octet(0x16), Octet(0x01)];
    WireAppend(order, head + text, tail);
    WireAppend(order, head, text);
    HeaderOnWire(order, noise);
  }

  lemma EndedBits(order: Order, noise: seq<bool>, b: Sent)
    requires b.Ended?
    ensures noise + WireAll(order, SentOctets(b)) ==
            HeaderBits(order, noise) + WireAll(order, Collected(b)) + Wire(order, b.terminator) + Wire(order, b.crcHigh) +
            Wire(order, b.crcLow) + Wire(order, b.trailer)
  {
    hide Wire, WireAll, HeaderBits;
    PartsOnWire(order, noise, b.text, [b.terminator, b.crcHigh, b.crcLow, b.trailer]);
    FourOnWire(order, b.terminator, b.crcHigh, b.crcLow, b.trailer);
  }

  lemma DeletedBits(order: Order, noise: seq<bool>, b: Sent)
    requires b.Deleted?
    ensures noise + WireAll(order, SentOctets(b)) ==
            HeaderBits(order, noise) + WireAll(order, Collected(b)) + Wire(order, Octet(0x7F)) + Wire(order, b.trailer)
  {
    hide Wire, WireAll, HeaderBits;
    PartsOnWire(order, noise, Collected(b), [Octet(0x7F), b.trailer]);
    TwoOnWire(order, Octet(0x7F), b.trailer);
  }

  /** A block and the noise in front of it. */
  datatype Transmission = Transmission(noise: seq<bool>, block: Sent)

  function Stream(order: Order, all: seq<Transmission>): seq<bool> {
    if all == [] then []
    else Stream(order, all[..|all| - 1]) + (all[|all| - 1].noise + WireAll(order, SentOctets(all[|all| - 1].block)))
  }

  function AllReceived(all: seq<Transmission>): seq<Block> {
    seq(|all|, i requires 0 <= i < |all| => Received(all[i].block))
  }

  /** Any sequence of well-formed blocks, sent in the configured bit order to a fresh decoder and with any noise between
      them that holds no SYN, is emitted as exactly those blocks. */
  lemma {:induction false} BlocksComeBack(order: Order, all: seq<Transmission>)
    requires forall i :: 0 <= i < |all| ==> WellFormed(all[i].block) && Quiet(order, all[i].noise)
    ensures var u := Run(Fresh(order), Stream(order, all));
            Clean(u) && u.order == order && u.emitted == AllReceived(all)
  {
    hide Run, WireAll, WellFormed, SentOctets, Received, Quiet;
    if all == [] {
      NothingFed(Fresh(order));
    } else {
      var n := |all| - 1;
      BlocksComeBack(order, all[..n]);
      RunAppend(Fresh(order), Stream(order, all[..n]), all[n].noise + WireAll(order, SentOctets(all[n].block)));
      BlockRun(Run(Fresh(order), Stream(order, all[..n])), all[n].noise, all[n].block);
    }
  }

  // ----- blocks that are given up

  /** The fifth bad character ends a block without a trace, and so does the 241st that is no terminator. */
  lemma GivenUp(d: Decoder, noise: seq<bool>, text: seq<Octet>, c: Octet)
    requires Waiting(d) && Quiet(d.order, noise) && |text| <= 240 && TextChars(text) && Bad(text) <= 4
    requires c != Octet(0x83) && c != Octet(0x97)
    requires (Bad(text) == 4 && IsBad(c)) || (|text| == 240 && c != Octet(0x7F))
    ensures var u := Run(d, HeaderBits(d.order, noise) + WireAll(d.order, text) + Wire(d.order, c));
            Clean(u) && u.order == d.order && u.emitted == d.emitted
  {
    hide Run, WireAll, TextChars, Quiet, Wire, IsBad, Bad, HeaderBits, ParityOk;
    NothingBad();
    ParityIsOnes(c);
    var s := HeaderRun(d, noise);
    var t := TextRun(d, s, HeaderBits(d.order, noise), text);
    var u := Step(d, HeaderBits(d.order, noise) + WireAll(d.order, text), t, c);
  }

  /** A second character that is no SYN, or a third that is no SOH, sends the decoder back to hunting. */
  lemma HeaderBroken(d: Decoder, noise: seq<bool>, c: Octet)
    requires Waiting(d) && Quiet(d.order, noise)
    ensures var syn := Wire(d.order, Octet(0x16));
            && (c != Octet(0x16) ==> Run(d, noise + syn + Wire(d.order, c)) == Reset(d))
            && (c != Octet(0x01) ==> Run(d, noise + syn + syn + Wire(d.order, c)) == Reset(d))
  {
    hide Run, Wire, Quiet;
    SynFound(d, noise);
    var bits := noise + Wire(d.order, Octet(0x16));
    var a := Step(d, bits, d.(state := Syn2), c);
    var b := Step(d, bits, d.(state := Syn2), Octet(0x16));
    var e := Step(d, bits + Wire(d.order, Octet(0x16)), b, c);
  }

  // ----- the block check

  datatype Check = Check(v: bv16)

  /** One shift of acars_crc16. */
  function Divide(c: Check): Check {
    Check((c.v << 1) ^ (if c.v & 0x8000 != 0 then 0x1021 else 0))
  }

  function Mix(a: Check, b: Check): Check { Check(a.v ^ b.v) }

  function AtTop(b: byte): Check { Check((b as bv16) << 8) }

  function DivideEight(c: Check): Check { Divide(Divide(Divide(Divide(Divide(Divide(Divide(Divide(c)))))))) }

  /** acars_crc16: an octet at a time into the top of the register. */
  function BlockCheck(data: seq<Octet>): Check {
    if data == [] then Check(0)
    else DivideEight(Mix(BlockCheck(data[..|data| - 1]), AtTop(data[|data| - 1].v)))
  }

  function DigitsUpTo(n: nat): seq<Octet>
    requires n <= 9
  {
    [Octet(0x31), Octet(0x32), Octet(0x33), Octet(0x34), Octet(0x35), Octet(0x36), Octet(0x37), Octet(0x38), Octet(0x39)][..n]
  }

  /** The register behind each of the digits. */
  const AFTER_DIGITS := [Check(0), Check(0x2672), Check(0x20B5), Check(0x9752), Check(0xD789),
                         Check(0x546C), Check(0x20E4), Check(0x86D6), Check(0x9015), Check(0x31C3)]

  lemma DigitStep(n: nat)
    requires n < 9
    ensures DivideEight(Mix(AFTER_DIGITS[n], AtTop(DigitsUpTo(9)[n].v))) == AFTER_DIGITS[n + 1]
  {
    if n == 0 {} else if n == 1 {} else if n == 2 {} else if n == 3 {} else if n == 4 {} else if n == 5 {} else
    if n == 6 {} else if n == 7 {} else {}
  }

  lemma {:induction false} DigitsRun(n: nat)
    requires n <= 9
    ensures BlockCheck(DigitsUpTo(n)) == AFTER_DIGITS[n]
    decreases n
  {
    hide DivideEight, Mix, AtTop;
    if n > 0 {
      DigitsRun(n - 1);
      DigitStep(n - 1);
      assert DigitsUpTo(n)[..n - 1] == DigitsUpTo(n - 1);
    }
  }

  /** The published check value of this block check, the one over the digits 1 to 9. */
  lemma PublishedCheck()
    ensures BlockCheck([Octet(0x31), Octet(0x32), Octet(0x33), Octet(0x34), Octet(0x35), Octet(0x36), Octet(0x37), Octet(0x38),
                        Octet(0x39)]) == Check(0x31C3)
  {
    hide DivideEight, Mix, AtTop, BlockCheck;
    DigitsRun(9);
    assert DigitsUpTo(9) == [Octet(0x31), Octet(0x32), Octet(0x33), Octet(0x34), Octet(0x35), Octet(0x36), Octet(0x37),
                             Octet(0x38), Octet(0x39)];
  }

  method AcarsCrc16(data: seq<Octet>) returns (crc: Check)
    ensures crc == BlockCheck(data)
  {
    hide Divide, Mix, AtTop;
    crc := Check(0);
    for i := 0 to |data|
      invariant crc == BlockCheck(data[..i])
    {
      assert data[..i + 1][..i] == data[..i];
      crc := Mix(crc, AtTop(data[i].v));
      crc := DivideEight(crc);
    }
    assert data[..|data|] == data;
  }

  function HighOctet(c: Check): Octet { Octet((c.v >> 8) as bv8) }

  function LowOctet(c: Check): Octet { Octet((c.v & 0xFF) as bv8) }

  function Joined(high: Octet, low: Octet): Check { Check(((high.v as bv16) << 8) | (low.v as bv16)) }

  const MIN_LENGTH: nat := 23

  /** acars_decode's verdict on a block. */
  predicate CrcOk(b: Block) {
    |b.message| + 2 >= MIN_LENGTH && BlockCheck(b.message) == Joined(b.crcHigh, b.crcLow)
  }

  lemma JoinedBack(c: Check, high: Octet, low: Octet)
    ensures Joined(high, low) == c <==> high == HighOctet(c) && low == LowOctet(c)
  {
  }

  /** A received block is good exactly when it is not too short and its check octets are those of what it shows. */
  lemma ReceivedIsChecked(b: Sent)
    ensures var shown := if b.Ended? then b.text + [b.terminator] else b.text;
            CrcOk(Received(b)) <==>
              |shown| >= 21 && b.crcHigh == HighOctet(BlockCheck(shown)) && b.crcLow == LowOctet(BlockCheck(shown))
  {
    hide BlockCheck, Joined, HighOctet, LowOctet, Bad;
    JoinedBack(BlockCheck(Received(b).message), b.crcHigh, b.crcLow);
  }

  // ----- the octet-wise check is polynomial division bit by bit

  /** The reference: one bit at a time, most significant first, from a zero register. */
  function Serial(c: Check, bits: seq<bool>): Check { Check(Crc16.Run(c.v, bits)) }

  function ShiftOne(c: Check, bit: bool): Check { Check(Crc16.Step(c.v, bit)) }

  function Twice(c: Check): Check { Check(c.v << 1) }

  predicate Top(c: Check) { c.v & 0x8000 != 0 }

  lemma PeelBit(c: Check, rest: Check)
    ensures Divide(Mix(c, rest)) == Mix(ShiftOne(c, Top(rest)), Twice(rest))
  {
    if Top(rest) {
    } else {
    }
  }

  lemma DoubledOctet(b: byte)
    ensures MsbBits(b) == [Top(AtTop(b)), Top(Twice(AtTop(b))), Top(Twice(Twice(AtTop(b)))), Top(Twice(Twice(Twice(AtTop(b))))),
                           Top(Twice(Twice(Twice(Twice(AtTop(b)))))), Top(Twice(Twice(Twice(Twice(Twice(AtTop(b))))))),
                           Top(Twice(Twice(Twice(Twice(Twice(Twice(AtTop(b)))))))),
                           Top(Twice(Twice(Twice(Twice(Twice(Twice(Twice(AtTop(b)))))))))]
    ensures Twice(Twice(Twice(Twice(Twice(Twice(Twice(Twice(AtTop(b))))))))) == Check(0)
  {
  }

  lemma MixZero(c: Check)
    ensures Mix(c, Check(0)) == c
  {
  }

  function ShiftEight(c: Check, s: seq<bool>): Check
    requires |s| == 8
  {
    ShiftOne(ShiftOne(ShiftOne(ShiftOne(ShiftOne(ShiftOne(ShiftOne(ShiftOne(c, s[0]), s[1]), s[2]), s[3]), s[4]), s[5]), s[6]), s[7])
  }

  lemma OctetUpFront(c: Check, b: byte)
    ensures DivideEight(Mix(c, AtTop(b))) == ShiftEight(c, MsbBits(b))
  {
    hide Divide, Mix, AtTop, ShiftOne, Twice, Top, MsbBits;
    DoubledOctet(b);
    var s, x0 := MsbBits(b), AtTop(b);
    var x1 := Twice(x0);
    var x2 := Twice(x1);
    var x3 := Twice(x2);
    var x4 := Twice(x3);
    var x5 := Twice(x4);
    var x6 := Twice(x5);
    var x7 := Twice(x6);
    var c1 := ShiftOne(c, s[0]);
    var c2 := ShiftOne(c1, s[1]);
    var c3 := ShiftOne(c2, s[2]);
    var c4 := ShiftOne(c3, s[3]);
    var c5 := ShiftOne(c4, s[4]);
    var c6 := ShiftOne(c5, s[5]);
    var c7 := ShiftOne(c6, s[6]);
    PeelBit(c, x0);
    PeelBit(c1, x1);
    PeelBit(c2, x2);
    PeelBit(c3, x3);
    PeelBit(c4, x4);
    PeelBit(c5, x5);
    PeelBit(c6, x6);
    PeelBit(c7, x7);
    MixZero(ShiftOne(c7, s[7]));
  }

  lemma SerialPush(c: Check, bits: seq<bool>, bit: bool)
    ensures Serial(c, bits + [bit]) == ShiftOne(Serial(c, bits), bit)
  {
    hide Crc16.Run, Crc16.Step;
    Crc16.RunPush(c.v, bits, bit);
  }

  lemma SerialNothing(c: Check)
    ensures Serial(c, []) == c
  {
  }

  lemma SerialNext(c: Check, s: seq<bool>, n: nat)
    requires n < |s|
    ensures Serial(c, s[..n + 1]) == ShiftOne(Serial(c, s[..n]), s[n])
  {
    hide Serial, ShiftOne;
    assert s[..n + 1] == s[..n] + [s[n]];
    SerialPush(c, s[..n], s[n]);
  }

  lemma SerialEight(c: Check, s: seq<bool>)
    requires |s| == 8
    ensures Serial(c, s) == ShiftEight(c, s)
  {
    hide Serial, ShiftOne;
    SerialNothing(c);
    assert s[..0] == [] && s[..8] == s;
    SerialNext(c, s, 0);
    SerialNext(c, s, 1);
    SerialNext(c, s, 2);
    SerialNext(c, s, 3);
    SerialNext(c, s, 4);
    SerialNext(c, s, 5);
    SerialNext(c, s, 6);
    SerialNext(c, s, 7);
  }

  lemma SerialAppend(c: Check, a: seq<bool>, b: seq<bool>)
    ensures Serial(c, a + b) == Serial(Serial(c, a), b)
  {
    hide Crc16.Run;
    Crc16.RunAppend(c.v, a, b);
  }

  /** The octets' bits, each octet most significant bit first. */
  function DivisionBits(data: seq<Octet>): seq<bool> {
    if data == [] then [] else DivisionBits(data[..|data| - 1]) + MsbBits(data[|data| - 1].v)
  }

  /** acars_crc16 is the remainder of the message divided by the CCITT polynomial, bit by bit. */
  lemma {:induction false} BlockCheckIsDivision(data: seq<Octet>)
    ensures BlockCheck(data) == Serial(Check(0), DivisionBits(data))
  {
    hide Divide, Mix, AtTop, ShiftOne, Serial, MsbBits, DivideEight, ShiftEight;
    SerialNothing(Check(0));
    if data != [] {
      var n := |data| - 1;
      BlockCheckIsDivision(data[..n]);
      OctetUpFront(BlockCheck(data[..n]), data[n].v);
      SerialEight(BlockCheck(data[..n]), MsbBits(data[n].v));
      SerialAppend(Check(0), DivisionBits(data[..n]), MsbBits(data[n].v));
    }
  }
}
