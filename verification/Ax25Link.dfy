/** The AX.25 receiver undoes the transmitter: from any octet boundary the bit decoder run over the
    transmitter's line levels does exactly what splitting the item list at its flags does. */
module Ax25Link {
  import opened Bits
  import opened Ax25Line
  import opened Ax25Rx
  import Crc16

  /** The receiver seen octet by octet: has a flag been seen, the octets since, and what came of
      the frames. The 256th octet of a frame makes it wait for the next flag. */
  datatype Link = Link(open: bool, segment: seq<byte>, delivered: seq<seq<byte>>, badFcs: nat, tooShort: nat)

  /** A flag ends the segment in front of it: an empty one is nothing, one of up to 17 octets or a damaged one is
      counted, a good one is delivered. */
  function CloseSegment(k: Link): Link {
    var next := k.(open := true, segment := []);
    if k.segment == [] then next
    else if |k.segment| < 18 then next.(tooShort := k.tooShort + 1)
    else if Crc16.FrameValid(k.segment) then next.(delivered := k.delivered + [k.segment])
    else next.(badFcs := k.badFcs + 1)
  }

  function Receive(k: Link, item: Item): Link {
    match item
    case Flag => CloseSegment(k)
    case Data(octet) =>
      if !k.open then k
      else if |k.segment| < 255 then k.(segment := k.segment + [octet])
      else k.(open := false, segment := [])
  }

  function ReceiveAll(k: Link, items: seq<Item>): Link {
    if items == [] then k else Receive(ReceiveAll(k, items[..|items| - 1]), items[|items| - 1])
  }

  /** The decoder stands on an octet boundary, with the line and the ones counter where the transmitter has them; or it
      waits for a flag, and has counted no more ones than the transmitter. */
  predicate Aligned(s: Rx, k: Link, level: bool, ones: nat) {
    && s.lastBit == level && ones < 5
    && s.buffer == k.segment && |k.segment| <= 255
    && s.delivered == k.delivered && s.badFcs == k.badFcs && s.tooShort == k.tooShort
    && (if k.open then s.bitIndex == 0 && s.ones == ones && s.phase == (if k.segment == [] then WaitFrame else InFrame)
        else k.segment == [] && Lost(s, ones))
  }

  predicate Lost(s: Rx, ones: nat) { s.phase == WaitFlag && s.buffer == [] && s.bitIndex < 8 && s.ones <= ones }

  /** `t` is `s` after the levels that were sent between line `l` and line `m`. */
  ghost predicate Follows(s: Rx, l: Line, t: Rx, m: Line) {
    l.levels <= m.levels && t == Run(s, m.levels[|l.levels|..]) && t.lastBit == m.level
  }

  lemma FollowsNothing(s: Rx, l: Line)
    requires s.lastBit == l.level
    ensures Follows(s, l, s, l)
  {
    assert l.levels[|l.levels|..] == [];
  }

  lemma FollowsTransitive(s: Rx, l: Line, t: Rx, m: Line, u: Rx, n: Line)
    requires Follows(s, l, t, m) && Follows(t, m, u, n)
    ensures Follows(s, l, u, n)
  {
    hide Step;
    var a, b := m.levels[|l.levels|..], n.levels[|m.levels|..];
    assert n.levels[|l.levels|..] == a + b;
    RunAppend(s, a, b);
  }

  // ----- one bit

  /** NRZI decoding undoes NRZI encoding, whatever the level. */
  lemma RawBit(s: Rx, l: Line, bit: bool) returns (t: Rx)
    requires s.lastBit == l.level
    ensures Follows(s, l, t, Emit(l, bit))
    ensures t == Decoded(s, bit).(lastBit := Emit(l, bit).level)
  {
    hide Decoded;
    DecodedIgnoresLevel(s, bit, Emit(l, bit).level);
    var m := Emit(l, bit);
    assert m.levels[|l.levels|..] == [] + [m.level];
    t := Step(s, m.level);
    assert Run(s, []) == s;
    RunPush(s, [], m.level);
  }

  predicate HasRoom(s: Rx) {
    s.bitIndex < 7 || s.phase == WaitFlag || |s.buffer| + 1 < MAX_LENGTH
  }

  /** Short of an overflow, the assembler neither reads nor writes the line state. */
  lemma AbsorbIgnoresLine(s: Rx, bit: bool, level: bool, ones: nat)
    requires HasRoom(s)
    ensures Absorb(s.(lastBit := level, ones := ones), bit) == Absorb(s, bit).(lastBit := level, ones := ones)
  {
    hide ShiftRight;
  }

  /** A data bit and the zero stuffed behind it reach the octet assembler as that one bit. */
  lemma DataBit(s: Rx, l: Line, bit: bool) returns (t: Rx)
    requires s.lastBit == l.level && s.ones == l.ones < 5 && HasRoom(s)
    ensures var m := PushBit(l, bit, false);
            && Follows(s, l, t, m) && m.ones < 5
            && t == Absorb(s, bit).(lastBit := m.level, ones := m.ones)
  {
    hide ShiftRight, Absorb, Crc16.FrameValid, Run;
    var m := Emit(l, bit);
    t := RawBit(s, l, bit);
    AbsorbIgnoresLine(s, bit, s.lastBit, if bit then s.ones + 1 else 0);
    if bit && l.ones == 4 {
      var u := RawBit(t, m, false);
      FollowsTransitive(s, l, t, m, u, Emit(m, false));
      t := u;
      FollowsIgnoresOnes(s, l, t, Emit(m, false), 0);
    } else {
      FollowsIgnoresOnes(s, l, t, m, if bit then l.ones + 1 else 0);
    }
  }

  lemma FollowsIgnoresOnes(s: Rx, l: Line, t: Rx, m: Line, ones: nat)
    requires Follows(s, l, t, m)
    ensures Follows(s, l, t, m.(ones := ones))
  {
  }

  // ----- one octet

  function Assembled(current: byte, bits: seq<bool>, n: nat): byte
    requires n <= |bits|
  {
    if n == 0 then current else ShiftRight(Assembled(current, bits, n - 1), bits[n - 1])
  }

  /** Eight right shifts replace the whole register, whatever it held. */
  lemma AssembledOctet(current: byte, octet: byte)
    ensures Assembled(current, LsbBits(octet), 8) == octet
  {
    var b := LsbBits(octet);
    var c1 := ShiftRight(current, b[0]);
    var c2 := ShiftRight(c1, b[1]);
    var c3 := ShiftRight(c2, b[2]);
    var c4 := ShiftRight(c3, b[3]);
    var c5 := ShiftRight(c4, b[4]);
    var c6 := ShiftRight(c5, b[5]);
    var c7 := ShiftRight(c6, b[6]);
    assert ShiftRight(c7, b[7]) == octet;
    assert Assembled(current, b, 0) == current;
    assert Assembled(current, b, 2) == c2;
    assert Assembled(current, b, 4) == c4;
    assert Assembled(current, b, 6) == c6;
  }

  lemma {:induction false} DataBits(s: Rx, l: Line, bits: seq<bool>, n: nat) returns (t: Rx)
    requires n < 8 == |bits|
    requires s.lastBit == l.level && s.ones == l.ones < 5 && s.bitIndex == 0
    ensures var m := PushBits(l, bits, n, false);
            && Follows(s, l, t, m) && m.ones < 5
            && t == s.(current := Assembled(s.current, bits, n), bitIndex := n, lastBit := m.level, ones := m.ones)
  {
    hide ShiftRight, Follows, PushBit;
    if n == 0 {
      FollowsNothing(s, l);
      t := s;
    } else {
      var u := DataBits(s, l, bits, n - 1);
      var m := PushBits(l, bits, n - 1, false);
      t := DataBit(u, m, bits[n - 1]);
      FollowsTransitive(s, l, u, m, t, PushBit(m, bits[n - 1], false));
    }
  }

  /** A data octet behind a flag. */
  lemma DataOctet(s: Rx, k: Link, l: Line, octet: byte) returns (t: Rx)
    requires Aligned(s, k, l.level, l.ones) && k.open
    ensures var m := Push(l, Data(octet));
            Follows(s, l, t, m) && Aligned(t, Receive(k, Data(octet)), m.level, m.ones)
  {
    hide ShiftRight, Follows, PushBit;
    var bits := LsbBits(octet);
    var u := DataBits(s, l, bits, 7);
    var m := PushBits(l, bits, 7, false);
    if |k.segment| < 255 {
      t := DataBit(u, m, bits[7]);
      AssembledOctet(s.current, octet);
      assert Assembled(s.current, bits, 8) == ShiftRight(Assembled(s.current, bits, 7), bits[7]);
    } else {
      t := OverflowBit(u, m, bits[7]);
    }
    FollowsTransitive(s, l, u, m, t, PushBit(m, bits[7], false));
  }

  predicate SameCounts(s: Rx, t: Rx) { t.delivered == s.delivered && t.badFcs == s.badFcs && t.tooShort == s.tooShort }

  /** The bit that completes the 256th octet. */
  lemma OverflowBit(s: Rx, l: Line, bit: bool) returns (t: Rx)
    requires s.lastBit == l.level && s.ones == l.ones < 5 && s.bitIndex == 7 && s.phase == InFrame && |s.buffer| == 255
    ensures var m := PushBit(l, bit, false);
            Follows(s, l, t, m) && m.ones < 5 && t.lastBit == m.level && Lost(t, m.ones) && SameCounts(s, t)
  {
    hide ShiftRight, Crc16.FrameValid, Follows;
    var m := Emit(l, bit);
    t := RawBit(s, l, bit);
    if bit && l.ones == 4 {
      var u := RawBit(t, m, false);
      FollowsTransitive(s, l, t, m, u, Emit(m, false));
      t := u;
      FollowsIgnoresOnes(s, l, t, Emit(m, false), 0);
    } else {
      FollowsIgnoresOnes(s, l, t, m, if bit then l.ones + 1 else 0);
    }
  }

  /** While the decoder waits for a flag, no data bit looks like one. */
  lemma LostBit(s: Rx, l: Line, bit: bool) returns (t: Rx)
    requires s.lastBit == l.level && l.ones < 5 && Lost(s, l.ones)
    ensures var m := PushBit(l, bit, false);
            Follows(s, l, t, m) && m.ones < 5 && t.lastBit == m.level && Lost(t, m.ones) && SameCounts(s, t)
  {
    hide ShiftRight, Crc16.FrameValid, Follows;
    var m := Emit(l, bit);
    t := RawBit(s, l, bit);
    if bit && l.ones == 4 {
      var u := RawBit(t, m, false);
      FollowsTransitive(s, l, t, m, u, Emit(m, false));
      t := u;
      FollowsIgnoresOnes(s, l, t, Emit(m, false), 0);
    } else {
      FollowsIgnoresOnes(s, l, t, m, if bit then l.ones + 1 else 0);
    }
  }

  lemma {:induction false} LostBits(s: Rx, l: Line, bits: seq<bool>, n: nat) returns (t: Rx)
    requires n <= |bits| && s.lastBit == l.level && l.ones < 5 && Lost(s, l.ones)
    ensures var m := PushBits(l, bits, n, false);
            Follows(s, l, t, m) && m.ones < 5 && t.lastBit == m.level && Lost(t, m.ones) && SameCounts(s, t)
  {
    hide Follows, PushBit, Lost;
    if n == 0 {
      FollowsNothing(s, l);
      t := s;
    } else {
      var u := LostBits(s, l, bits, n - 1);
      var m := PushBits(l, bits, n - 1, false);
      t := LostBit(u, m, bits[n - 1]);
      FollowsTransitive(s, l, u, m, t, PushBit(m, bits[n - 1], false));
    }
  }

  lemma LostOctet(s: Rx, k: Link, l: Line, octet: byte) returns (t: Rx)
    requires Aligned(s, k, l.level, l.ones) && !k.open
    ensures var m := Push(l, Data(octet));
            Follows(s, l, t, m) && Aligned(t, Receive(k, Data(octet)), m.level, m.ones)
  {
    hide Follows, PushBits;
    t := LostBits(s, l, LsbBits(octet), 8);
  }

  // ----- one flag

  function Ones(s: Rx, n: nat): Rx {
    if n == 0 then s else Decoded(Ones(s, n - 1), true)
  }

  /** The decoder after 01111110. */
  function AfterFlag(s: Rx): Rx {
    Decoded(Ones(Decoded(s, false), 6), false)
  }

  lemma DecodedIgnoresLevel(s: Rx, bit: bool, level: bool)
    ensures Decoded(s.(lastBit := level), bit) == Decoded(s, bit).(lastBit := level)
  {
    hide ShiftRight, Crc16.FrameValid, Absorb;
    AbsorbIgnoresLevel(s.(ones := if s.ones < 8 then s.ones + 1 else s.ones), true, level);
    AbsorbIgnoresLevel(s.(ones := 0), false, level);
    var t := s.(lastBit := level);
    if bit {
    } else if s.ones > 6 {
    } else if s.ones == 6 {
      assert Closes(s, bit) == Closes(t, bit);
    }
  }

  lemma AbsorbIgnoresLevel(s: Rx, bit: bool, level: bool)
    ensures Absorb(s.(lastBit := level), bit) == Absorb(s, bit).(lastBit := level)
  {
    hide ShiftRight;
    if s.bitIndex + 1 < 8 {
    } else if s.phase == WaitFlag {
    } else if |s.buffer| + 1 >= MAX_LENGTH {
    } else {
    }
  }

  lemma {:induction false} SendOnes(s: Rx, l: Line, n: nat) returns (t: Rx, m: Line)
    requires s.lastBit == l.level
    ensures Follows(s, l, t, m) && t == Ones(s, n).(lastBit := m.level)
    ensures m == OnesOnLine(l, n)
  {
    hide Follows, Decoded;
    if n == 0 {
      FollowsNothing(s, l);
      t, m := s, l;
    } else {
      var u, k := SendOnes(s, l, n - 1);
      t := RawBit(u, k, true);
      DecodedIgnoresLevel(Ones(s, n - 1), true, k.level);
      FollowsTransitive(s, l, u, k, t, Emit(k, true));
      m := PushBit(k, true, true);
      FollowsIgnoresOnes(s, l, t, Emit(k, true), m.ones);
    }
  }

  function OnesOnLine(l: Line, n: nat): Line {
    if n == 0 then l else PushBit(OnesOnLine(l, n - 1), true, true)
  }

  lemma PushFlag(l: Line)
    ensures Push(l, Flag) == PushBit(OnesOnLine(PushBit(l, false, true), 6), false, true)
  {
    hide PushBit;
    var b := LsbBits(FLAG_OCTET);
    assert b == [false, true, true, true, true, true, true, false];
    var z := PushBit(l, false, true);
    assert PushBits(l, b, 0, true) == l;
    assert PushBits(l, b, 2, true) == OnesOnLine(z, 1);
    assert PushBits(l, b, 4, true) == OnesOnLine(z, 3);
    assert PushBits(l, b, 6, true) == OnesOnLine(z, 5);
    assert PushBits(l, b, 7, true) == OnesOnLine(z, 6);
  }

  lemma FlagOctet(s: Rx, l: Line) returns (t: Rx)
    requires s.lastBit == l.level
    ensures var m := Push(l, Flag);
            Follows(s, l, t, m) && t == AfterFlag(s).(lastBit := m.level) && m.ones == 0
  {
    hide Follows, Decoded;
    PushFlag(l);
    var u := RawBit(s, l, false);
    var k := PushBit(l, false, true);
    FollowsIgnoresOnes(s, l, u, Emit(l, false), 0);
    var v, m := SendOnes(u, k, 6);
    FollowsTransitive(s, l, u, k, v, m);
    OnesIgnoreLevel(Decoded(s, false), 6, u.lastBit);
    t := RawBit(v, m, false);
    DecodedIgnoresLevel(Ones(Decoded(s, false), 6), false, v.lastBit);
    FollowsTransitive(s, l, v, m, t, Emit(m, false));
    FollowsIgnoresOnes(s, l, t, Emit(m, false), 0);
  }

  lemma {:induction false} OnesIgnoreLevel(s: Rx, n: nat, level: bool)
    ensures Ones(s.(lastBit := level), n) == Ones(s, n).(lastBit := level)
  {
    hide Decoded;
    if n > 0 {
      OnesIgnoreLevel(s, n - 1, level);
      DecodedIgnoresLevel(Ones(s, n - 1), true, level);
    }
  }

  /** Shifting ones in from inside an octet only moves the assembler's cursor. */
  lemma {:induction false} OnesInsideOctet(s: Rx, n: nat)
    requires s.ones == 0 && s.bitIndex + n < 8
    ensures Ones(s, n) == s.(current := Ones(s, n).current, bitIndex := s.bitIndex + n, ones := n)
  {
    hide ShiftRight;
    if n > 0 {
      OnesInsideOctet(s, n - 1);
    }
  }

  /** Ones while the decoder waits for a flag are only counted. */
  lemma {:induction false} OnesWhileLost(s: Rx, n: nat)
    requires s.phase == WaitFlag && s.buffer == [] && s.bitIndex < 8 && s.ones == 0 && n <= 6
    ensures var t := Ones(s, n);
            t.phase == WaitFlag && t.buffer == [] && t.bitIndex < 8 && t.ones == n && t.lastBit == s.lastBit && SameCounts(s, t)
  {
    hide ShiftRight, Crc16.FrameValid;
    if n > 0 {
      OnesWhileLost(s, n - 1);
    }
  }

  /** On an octet boundary a flag ends the segment, and nothing of it is taken for data; and it opens a segment where
      there is none. */
  lemma FlagFromBoundary(s: Rx, k: Link, level: bool, ones: nat)
    requires Aligned(s, k, level, ones)
    ensures Aligned(AfterFlag(s), CloseSegment(k), level, 0)
  {
    hide ShiftRight, Crc16.FrameValid;
    var u := Decoded(s, false);
    if k.open {
      OnesInsideOctet(u, 6);
    } else {
      OnesWhileLost(u, 6);
    }
  }

  /** The decoder stands right behind a flag. */
  predicate BehindFlag(s: Rx) {
    s.phase == WaitFrame && s.buffer == [] && s.bitIndex == 0 && s.ones == 0
  }

  /** One more one: the octet grows, or completes and is dropped, stored, or overflows the buffer. */
  lemma OneMore(s: Rx)
    requires Inv(s) && s.ones < 8
    ensures var t := Decoded(s, true);
            && Inv(t)
            && (s.phase == WaitFlag ==> t.phase == WaitFlag)
            && (t.ones == s.ones + 1 ||
                (t.ones == 0 && t.phase == WaitFlag && s.phase == InFrame && s.bitIndex == 7 && |s.buffer| + 1 == MAX_LENGTH))
            && (t.ones == s.ones + 1 ==> t.bitIndex == (s.bitIndex + 1) % 8)
            && |t.buffer| <= |s.buffer| + (if s.bitIndex == 7 then 1 else 0)
  {
    hide ShiftRight, Crc16.FrameValid;
  }

  /** Ones shifted in from anywhere: either the run is counted in full, or the buffer overflowed on
      the way and the frame was abandoned. */
  lemma {:induction false} OnesFromAnywhere(s: Rx, n: nat)
    requires Inv(s) && s.ones == 0 && n <= 6
    ensures var t := Ones(s, n);
            && Inv(t)
            && (s.phase == WaitFlag ==> t.phase == WaitFlag)
            && (t.ones == n || (t.phase == WaitFlag && t.ones < n && s.phase != WaitFlag && |s.buffer| + 1 == MAX_LENGTH))
            && (t.ones == n ==> t.bitIndex == (s.bitIndex + n) % 8)
            && (t.ones == n ==> |t.buffer| <= |s.buffer| + (if s.bitIndex + n >= 8 then 1 else 0))
  {
    hide Decoded;
    if n > 0 {
      OnesFromAnywhere(s, n - 1);
      OneMore(Ones(s, n - 1));
      if Ones(s, n - 1).ones == n - 1 {
        assert s.bitIndex + n - 1 < 16;
        assert Ones(s, n - 1).bitIndex == if s.bitIndex + n - 1 < 8 then s.bitIndex + n - 1 else s.bitIndex + n - 9;
      }
    }
  }

  /** One flag brings a decoder back from any reachable state, unless its buffer is full; then the
      flag's own ones can overflow the buffer, and all it does is abandon the frame. */
  lemma OneFlagFromAnywhere(s: Rx)
    requires Inv(s)
    ensures var t := AfterFlag(s);
            && Inv(t)
            && (BehindFlag(t) || (t.phase == WaitFlag && s.phase != WaitFlag && |s.buffer| + 1 == MAX_LENGTH))
  {
    hide ShiftRight, Crc16.FrameValid;
    var u := Decoded(s, false);
    DecodedKeepsInv(s, false);
    FirstZero(s);
    OnesFromAnywhere(u, 6);
    if u.bitIndex < 2 {
      OnesInsideOctet(u, 6);
    }
    LastZero(Ones(u, 6));
  }

  lemma FirstZero(s: Rx)
    requires Inv(s)
    ensures var u := Decoded(s, false);
            && Inv(u) && u.ones == 0 && (s.phase == WaitFlag && s.ones != 6 ==> u.phase == WaitFlag)
            && (|u.buffer| + 1 < MAX_LENGTH || u.bitIndex == 0 || |s.buffer| + 1 == MAX_LENGTH)
            && (u.phase == WaitFlag || s.phase != WaitFlag || u.buffer == [])
  {
    hide ShiftRight, Crc16.FrameValid;
  }

  lemma LastZero(s: Rx)
    requires Inv(s)
    ensures Inv(Decoded(s, false))
    ensures s.ones == 6 ==> BehindFlag(Decoded(s, false))
    ensures s.ones < 6 && s.phase == WaitFlag ==> Decoded(s, false).phase == WaitFlag
  {
    hide ShiftRight, Crc16.FrameValid;
  }

  // ----- the line as a whole

  /** The receiver run over the transmitter's levels is the item-level receiver run over the items, whatever they are. */
  lemma {:induction false} ReceiverInvertsTransmitter(s: Rx, k: Link, l: Line, items: seq<Item>) returns (t: Rx)
    requires Aligned(s, k, l.level, l.ones)
    ensures var m := Send(l, items);
            Follows(s, l, t, m) && Aligned(t, ReceiveAll(k, items), m.level, m.ones)
  {
    hide Follows, Push, Aligned, AfterFlag;
    if items == [] {
      t := s;
      BoundaryLevel(s, k, l.level, l.ones);
      FollowsNothing(s, l);
    } else {
      var n := |items| - 1;
      var u := ReceiverInvertsTransmitter(s, k, l, items[..n]);
      var j, m := ReceiveAll(k, items[..n]), Send(l, items[..n]);
      BoundaryLevel(u, j, m.level, m.ones);
      match items[n] {
        case Flag =>
          t := FlagOctet(u, m);
          FlagFromBoundary(u, j, m.level, m.ones);
          BoundaryMoves(AfterFlag(u), CloseSegment(j), m.level, t.lastBit);
        case Data(octet) =>
          if j.open {
            t := DataOctet(u, j, m, octet);
          } else {
            t := LostOctet(u, j, m, octet);
          }
      }
      FollowsTransitive(s, l, u, m, t, Push(m, items[n]));
    }
  }

  lemma BoundaryLevel(s: Rx, k: Link, level: bool, ones: nat)
    requires Aligned(s, k, level, ones)
    ensures s.lastBit == level
    ensures !k.open ==> k.segment == []
  {
  }

  lemma BoundaryMoves(s: Rx, k: Link, level: bool, next: bool)
    requires Aligned(s, k, level, 0)
    ensures Aligned(s.(lastBit := next), k, next, 0)
  {
  }

  // ----- item lists made of frames

  lemma {:induction false} ReceiveAppend(k: Link, a: seq<Item>, b: seq<Item>)
    ensures ReceiveAll(k, a + b) == ReceiveAll(ReceiveAll(k, a), b)
    decreases |b|
  {
    if b == [] {
      assert a + b == a;
    } else {
      var n := |b| - 1;
      assert (a + b)[..|a| + n] == a + b[..n];
      ReceiveAppend(k, a, b[..n]);
    }
  }

  lemma {:induction false} ReceiveOctets(k: Link, data: seq<byte>)
    requires k.open && |k.segment| + |data| <= 255
    ensures ReceiveAll(k, Octets(data)) == k.(segment := k.segment + data)
    decreases |data|
  {
    if data == [] {
      assert k.segment + data == k.segment;
    } else {
      var n := |data| - 1;
      assert Octets(data)[..n] == Octets(data[..n]);
      ReceiveOctets(k, data[..n]);
      assert k.segment + data == k.segment + data[..n] + [data[n]];
    }
  }

  /** A frame of more than 255 octets is dropped at the 256th. */
  lemma {:induction false} ReceiveOverlong(k: Link, data: seq<byte>)
    requires k.open && k.segment == [] && |data| > 255
    ensures ReceiveAll(k, Octets(data)) == k.(open := false)
    decreases |data|
  {
    var n := |data| - 1;
    assert Octets(data)[..n] == Octets(data[..n]);
    if n == 255 {
      ReceiveOctets(k, data[..n]);
      assert [] + data[..n] == data[..n];
    } else {
      ReceiveOverlong(k, data[..n]);
    }
  }

  lemma {:induction false} ReceiveFlags(k: Link, n: nat)
    ensures ReceiveAll(k, Flags(n)) == if n == 0 then k else CloseSegment(k)
  {
    if n > 0 {
      assert Flags(n)[..n - 1] == Flags(n - 1);
      ReceiveFlags(k, n - 1);
    }
  }

  /** A frame the receiver has to accept: at least the two addresses, control and PID, and room for
      the check sequence. */
  predicate Sendable(frame: seq<byte>) {
    16 <= |frame| <= 253
  }

  /** Frames separated by single shared flags. */
  function Stream(frames: seq<seq<byte>>): seq<Item> {
    if frames == [] then [] else
      Stream(frames[..|frames| - 1]) + Octets(Crc16.WithFcs(frames[|frames| - 1])) + Flags(1)
  }

  function Delivered(frames: seq<seq<byte>>): seq<seq<byte>> {
    seq(|frames|, i requires 0 <= i < |frames| => Crc16.WithFcs(frames[i]))
  }

  lemma ReceiveFrame(k: Link, frame: seq<byte>, trail: nat)
    requires k.open && k.segment == [] && Sendable(frame) && trail > 0
    ensures var items := Octets(Crc16.WithFcs(frame)) + Flags(trail);
            ReceiveAll(k, items) == k.(delivered := k.delivered + [Crc16.WithFcs(frame)])
  {
    hide Crc16.FrameValid, Crc16.Fcs;
    var sent := Crc16.WithFcs(frame);
    Crc16.OwnFcsIsValid(frame);
    ReceiveOctets(k, sent);
    assert k.segment + sent == sent;
    var j := ReceiveAll(k, Octets(sent));
    ReceiveFlags(j, trail);
    ReceiveAppend(k, Octets(sent), Flags(trail));
  }

  lemma {:induction false} ReceiveStream(k: Link, frames: seq<seq<byte>>)
    requires k.open && k.segment == []
    requires forall f :: f in frames ==> Sendable(f)
    ensures ReceiveAll(k, Stream(frames)) == k.(delivered := k.delivered + Delivered(frames))
    decreases |frames|
  {
    hide Crc16.WithFcs, ReceiveAll, Sendable;
    if frames == [] {
      assert k.delivered + Delivered(frames) == k.delivered;
      NothingReceived(k);
    } else {
      var n := |frames| - 1;
      ReceiveStream(k, frames[..n]);
      var j := ReceiveAll(k, Stream(frames[..n]));
      ReceiveFrame(j, frames[n], 1);
      var last := Octets(Crc16.WithFcs(frames[n])) + Flags(1);
      assert Stream(frames) == Stream(frames[..n]) + last;
      ReceiveAppend(k, Stream(frames[..n]), last);
      assert Delivered(frames) == Delivered(frames[..n]) + [Crc16.WithFcs(frames[n])];
    }
  }

  const FRESH := Link(false, [], [], 0, 0)

  /** End to end: a frame sent behind at least one flag and in front of at least one reaches the
      handler of a reset decoder exactly once, octet for octet, and no other counter moves. */
  lemma OneFrame(frame: seq<byte>, lead: nat, trail: nat)
    requires Sendable(frame) && lead > 0 && trail > 0
    ensures var rx := Run(RESET, Send(QUIET, FrameItems(frame, lead, trail)).levels);
            rx.delivered == [Crc16.WithFcs(frame)] && rx.badFcs == 0 && rx.tooShort == 0
  {
    hide Run, Send, ReceiveAll, Crc16.WithFcs, Sendable;
    var rest := Octets(Crc16.WithFcs(frame)) + Flags(trail);
    ReceiveFlags(FRESH, lead);
    var k := CloseSegment(FRESH);
    ReceiveFrame(k, frame, trail);
    ReceiveAppend(FRESH, Flags(lead), rest);
    assert FrameItems(frame, lead, trail) == Flags(lead) + rest;
    var items := FrameItems(frame, lead, trail);
    var t := ReceiverInvertsTransmitter(RESET, FRESH, QUIET, items);
    var levels := Send(QUIET, items).levels;
    assert levels[|QUIET.levels|..] == levels;
  }

  function FrameItems(frame: seq<byte>, lead: nat, trail: nat): seq<Item> {
    Flags(lead) + Octets(Crc16.WithFcs(frame)) + Flags(trail)
  }

  /** Streaming: any list of frames separated by single shared flags is delivered exactly and in order. */
  lemma ManyFrames(frames: seq<seq<byte>>)
    requires forall f :: f in frames ==> Sendable(f)
    ensures var rx := Run(RESET, Send(QUIET, Flags(1) + Stream(frames)).levels);
            rx.delivered == Delivered(frames) && rx.badFcs == 0 && rx.tooShort == 0
  {
    hide Run, Send, ReceiveAll, Stream, Sendable;
    ReceiveFlags(FRESH, 1);
    var k := CloseSegment(FRESH);
    ReceiveStream(k, frames);
    ReceiveAppend(FRESH, Flags(1), Stream(frames));
    assert [] + Delivered(frames) == Delivered(frames);
    var items := Flags(1) + Stream(frames);
    var t := ReceiverInvertsTransmitter(RESET, FRESH, QUIET, items);
    var levels := Send(QUIET, items).levels;
    assert levels[|QUIET.levels|..] == levels;
  }

  // ----- any segments whatever

  /** Segments separated by single flags. */
  function Segments(segments: seq<seq<byte>>): seq<Item> {
    if segments == [] then [] else Segments(segments[..|segments| - 1]) + Octets(segments[|segments| - 1]) + Flags(1)
  }

  /** A frame to be delivered: 18 to 255 octets that check. */
  predicate IsGood(segment: seq<byte>) { 18 <= |segment| <= 255 && Crc16.FrameValid(segment) }

  predicate IsDamaged(segment: seq<byte>) { 18 <= |segment| <= 255 && !Crc16.FrameValid(segment) }

  predicate IsShort(segment: seq<byte>) { 1 <= |segment| <= 17 }

  function Picked(segments: seq<seq<byte>>, p: seq<byte> -> bool): seq<seq<byte>> {
    if segments == [] then []
    else
      var rest, last := Picked(segments[..|segments| - 1], p), segments[|segments| - 1];
      if p(last) then rest + [last] else rest
  }

  lemma ReceiveSegment(k: Link, segment: seq<byte>)
    requires k.open && k.segment == []
    ensures ReceiveAll(k, Octets(segment) + Flags(1)) ==
            k.(delivered := k.delivered + (if IsGood(segment) then [segment] else []),
               badFcs := k.badFcs + (if IsDamaged(segment) then 1 else 0),
               tooShort := k.tooShort + (if IsShort(segment) then 1 else 0))
  {
    hide Crc16.FrameValid, ReceiveAll;
    ReceiveAppend(k, Octets(segment), Flags(1));
    if |segment| <= 255 {
      ReceiveOctets(k, segment);
      assert [] + segment == segment;
    } else {
      ReceiveOverlong(k, segment);
    }
    ReceiveFlags(ReceiveAll(k, Octets(segment)), 1);
  }

  lemma {:induction false} ReceiveSegments(k: Link, segments: seq<seq<byte>>)
    requires k.open && k.segment == []
    ensures ReceiveAll(k, Segments(segments)) ==
            k.(delivered := k.delivered + Picked(segments, IsGood), badFcs := k.badFcs + |Picked(segments, IsDamaged)|,
               tooShort := k.tooShort + |Picked(segments, IsShort)|)
    decreases |segments|
  {
    hide IsGood, IsDamaged, IsShort, ReceiveAll;
    if segments == [] {
      NothingReceived(k);
      assert k.delivered + [] == k.delivered;
    } else {
      var n := |segments| - 1;
      ReceiveSegments(k, segments[..n]);
      var last := Octets(segments[n]) + Flags(1);
      assert Segments(segments) == Segments(segments[..n]) + last;
      ReceiveAppend(k, Segments(segments[..n]), last);
      ReceiveSegment(ReceiveAll(k, Segments(segments[..n])), segments[n]);
    }
  }

  lemma NothingReceived(k: Link)
    ensures ReceiveAll(k, []) == k
  {
  }

  /** Whatever octets stand between single flags, a reset decoder delivers exactly the frames of 18 to 255 octets that
      check, in order, counts those of them that do not check and those of one to 17 octets, and ignores the longer ones. */
  lemma AnySegments(segments: seq<seq<byte>>)
    ensures var rx := Run(RESET, Send(QUIET, Flags(1) + Segments(segments)).levels);
            && rx.delivered == Picked(segments, IsGood)
            && rx.badFcs == |Picked(segments, IsDamaged)| && rx.tooShort == |Picked(segments, IsShort)|
  {
    hide Run, Send, ReceiveAll, Segments, IsGood, IsDamaged, IsShort, Picked;
    ReceiveFlags(FRESH, 1);
    var k := CloseSegment(FRESH);
    ReceiveSegments(k, segments);
    ReceiveAppend(FRESH, Flags(1), Segments(segments));
    assert [] + Picked(segments, IsGood) == Picked(segments, IsGood);
    var items := Flags(1) + Segments(segments);
    var t := ReceiverInvertsTransmitter(RESET, FRESH, QUIET, items);
    var levels := Send(QUIET, items).levels;
    assert levels[|QUIET.levels|..] == levels;
  }

  // ----- from any state

  lemma {:induction false} OnesCounted(s: Rx, n: nat)
    requires Inv(s) && |s.buffer| + (s.bitIndex + n) / 8 <= 255
    ensures var t := Ones(s, n);
            && SameCounts(s, t) && t.ones == (if s.ones + n <= 8 then s.ones + n else 8)
            && t.bitIndex == (s.bitIndex + n) % 8 && |t.buffer| <= |s.buffer| + (s.bitIndex + n) / 8
  {
    hide ShiftRight, Crc16.FrameValid;
    if n > 0 {
      OnesCounted(s, n - 1);
    }
  }

  function Constant(level: bool, n: nat): (r: seq<bool>)
    ensures |r| == n
  {
    seq(n, _ => level)
  }

  lemma DecodedKeepsLevel(s: Rx, bit: bool)
    ensures Decoded(s, bit).lastBit == s.lastBit
  {
    hide ShiftRight, Crc16.FrameValid;
  }

  lemma {:induction false} ConstantIsOnes(s: Rx, n: nat)
    ensures Run(s, Constant(s.lastBit, n)) == Ones(s, n) && Ones(s, n).lastBit == s.lastBit
  {
    hide Decoded;
    if n > 0 {
      ConstantIsOnes(s, n - 1);
      DecodedKeepsLevel(Ones(s, n - 1), true);
      assert Constant(s.lastBit, n)[..n - 1] == Constant(s.lastBit, n - 1);
    }
  }

  /** A line that stays for seven bits or more and then changes abandons a frame, from any state whose buffer the bits do
      not fill: nothing is delivered or counted, and the decoder waits for a flag with an empty buffer. */
  lemma AbortAbandons(s: Rx, n: nat)
    requires Inv(s) && n >= 7 && |s.buffer| + (s.bitIndex + n) / 8 <= 255
    ensures var t := Run(s, Constant(s.lastBit, n) + [!s.lastBit]);
            t.phase == WaitFlag && t.buffer == [] && t.bitIndex == 0 && t.ones == 0 && SameCounts(s, t)
  {
    hide ShiftRight, Crc16.FrameValid, Ones, Run;
    OnesCounted(s, n);
    ConstantIsOnes(s, n);
    RunPush(s, Constant(s.lastBit, n), !s.lastBit);
  }

  /** Resynchronisation: from any reachable state two consecutive flags leave the decoder waiting for
      a frame with an empty buffer, and every frame of the stream behind them is then delivered. */
  lemma TwoFlagsResynchronise(s: Rx, frames: seq<seq<byte>>)
    requires Inv(s)
    requires forall f :: f in frames ==> Sendable(f)
    ensures var l := Line([], s.lastBit, 0);
            var t := Run(s, Send(l, [Flag, Flag]).levels);
            && BehindFlag(t)
            && Run(t, Send(Line([], t.lastBit, 0), Stream(frames)).levels).delivered == t.delivered + Delivered(frames)
  {
    hide Follows, AfterFlag, Inv, Push, Stream, Sendable, Run;
    var l := Line([], s.lastBit, 0);
    var u := FlagOctet(s, l);
    var m := Push(l, Flag);
    OneFlagFromAnywhere(s);
    InvIgnoresLevel(AfterFlag(s), m.level);
    FollowsLevel(s, l, u, m);
    var t := FlagOctet(u, m);
    OneFlagFromAnywhere(u);
    FollowsTransitive(s, l, u, m, t, Push(m, Flag));
    assert [Flag, Flag] == [] + [Flag] + [Flag];
    SendNothing(l);
    SendPush(l, [], Flag);
    SendPush(l, [] + [Flag], Flag);
    FollowsFromStart(s, l, t, Push(m, Flag));

    var k := Link(true, [], t.delivered, t.badFcs, t.tooShort);
    ReceiveStream(k, frames);
    var quiet := Line([], t.lastBit, 0);
    var v := ReceiverInvertsTransmitter(t, k, quiet, Stream(frames));
    FollowsFromStart(t, quiet, v, Send(quiet, Stream(frames)));
  }

  lemma SendNothing(l: Line)
    ensures Send(l, []) == l
  {
  }

  lemma InvIgnoresLevel(s: Rx, level: bool)
    requires Inv(s)
    ensures Inv(s.(lastBit := level))
  {
  }

  lemma FollowsLevel(s: Rx, l: Line, t: Rx, m: Line)
    requires Follows(s, l, t, m)
    ensures t.lastBit == m.level
  {
  }

  lemma FollowsFromStart(s: Rx, l: Line, t: Rx, m: Line)
    requires Follows(s, l, t, m) && l.levels == []
    ensures t == Run(s, m.levels)
  {
    assert m.levels[|l.levels|..] == m.levels;
  }
}
