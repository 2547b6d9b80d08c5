/** The resumable batch decoder of POCSAG (pocsag_decode_batch in src/apps/pocsag_app.hpp and its caller's
    loop in src/apps/pocsag_app.cpp). The scoring of a message as text or digits is any function. */
module PocsagRx {
  import opened Bits
  import opened PocsagCode
  import opened PocsagWord
  import opened PocsagEcc
  import opened PocsagTx

  datatype Mode = Clear | HaveAddress | GettingMessage
  datatype OutputType = NoOutput | IdleOutput | AddressOutput | MessageOutput
  datatype DetectedType = Unknown | Tone | Alpha | Numeric

  const MAX_NIBBLES: nat := 80
  const NUMERIC_CAPACITY: nat := 80

  /** detect_message_type: the characters, the nibbles and the number of message words so far. */
  type Judge = (seq<byte>, seq<byte>, nat) -> DetectedType

  /** POCSAGState; `numeric` is the used part of numeric_buf. */
  datatype Pager = Pager(index: nat, func: bv32, address: bv32, mode: Mode, out: OutputType, data: bv64, idx: nat,
                         errors: nat, prevErr: nat, curErr: nat, newMessage: bool, decided: bool,
                         detected: DetectedType, words: nat, output: seq<byte>, numeric: seq<char>)

  const INITIAL := Pager(0, 0, 0, Clear, NoOutput, 0, 0, 0, 0, 0, false, false, Unknown, 0, [], [])

  /** What one call keeps for the scoring. */
  datatype Sample = Sample(nibbles: seq<byte>, words: nat, alpha: seq<byte>, bad: bool)

  const NO_SAMPLE := Sample([], 0, [], false)

  // ----- characters

  const DOT: byte := 0x2E
  const QUESTION: byte := 0x3F

  function TopChar(data: bv64): byte { ((data >> 57) & 0x7F) as bv8 }

  function DropChar(data: bv64): bv64 { data << 7 }

  /** The twenty information bits behind the first one. */
  function Field(w: Codeword): Codeword { Codeword((w.v >> 11) & 0xFFFFF) }

  /** A field in its place behind the collected bits. */
  function Slid(field: bv32, idx: nat): bv64
    requires idx < 7
  {
    (field as bv64) << (44 - idx)
  }

  function Over(data: bv64, field: bv64): bv64 { data | field }

  function JoinedField(data: bv64, field: bv32, idx: nat): bv64
    requires idx < 7
  {
    Over(data, Slid(field, idx))
  }

  function Joined(data: bv64, w: Codeword, idx: nat): bv64
    requires idx < 7
  {
    JoinedField(data, Field(w).v, idx)
  }

  /** Control characters show as dots. */
  function Visible(c: byte): byte { if c < 32 || c > 126 then DOT else c }

  function Worse(a: nat, b: nat): nat { if a < b then b else a }

  /** The error level of a character of which `fromPrev` bits came with earlier words. */
  function CharError(s: Pager, fromPrev: nat): nat {
    if fromPrev >= 7 then s.prevErr else if fromPrev > 0 then Worse(s.prevErr, s.curErr) else s.curErr
  }

  /** Whole characters out of the collected bits. */
  function Unpacked(s: Pager, l: Sample, fromPrev: nat): (r: (Pager, Sample))
    ensures r.0.idx < 7 && r.0 == s.(data := r.0.data, idx := r.0.idx, output := r.0.output)
    ensures r.1 == l.(alpha := r.1.alpha, bad := r.1.bad)
    decreases s.idx
  {
    if s.idx < 7 then (s, l)
    else
      var c := Reverse(TopChar(s.data));
      var shown := if CharError(s, fromPrev) >= 3 then QUESTION else Visible(c);
      Unpacked(s.(data := DropChar(s.data), idx := s.idx - 7, output := s.output + [shown]),
               l.(alpha := if s.decided then l.alpha else l.alpha + [c], bad := l.bad || CharError(s, fromPrev) >= 3),
               if fromPrev >= 7 then fromPrev - 7 else 0)
  }

  // ----- digits

  /** Four bits from bit `b` down, the first of them lowest. */
  function FourBits(v: bv32, b: nat): byte
    requires 3 <= b < 32
  {
    ((((v >> (b - 3)) & 1) << 3) | (((v >> (b - 2)) & 1) << 2) | (((v >> (b - 1)) & 1) << 1) | ((v >> b) & 1)) as bv8
  }

  /** Nibble `n` of the field, its first sent bit lowest. */
  function Nibble(w: Codeword, n: nat): byte
    requires n < 5
  {
    FourBits(w.v, 30 - 4 * n)
  }

  function Nibbles(w: Codeword): (r: seq<byte>)
    ensures |r| == 5
  {
    [Nibble(w, 0), Nibble(w, 1), Nibble(w, 2), Nibble(w, 3), Nibble(w, 4)]
  }

  const NUMERIC_CHARS := "0123456789RU -]["

  function NumericChar(n: byte): char {
    NibbleFits(n);
    NUMERIC_CHARS[(n & 0x0F) as nat]
  }

  lemma NibbleFits(n: byte)
    ensures (n & 0x0F) as nat < 16
  {
  }

  function NumericText(nibbles: seq<byte>): (r: string)
    ensures |r| == |nibbles|
  {
    seq(|nibbles|, i requires 0 <= i < |nibbles| => NumericChar(nibbles[i]))
  }

  function FirstOf<T>(s: seq<T>, n: nat): (r: seq<T>)
    ensures |r| <= n && |r| <= |s|
  {
    if |s| <= n then s else s[..n]
  }

  // ----- one codeword

  /** The scoring, once there is something to score. */
  function Settled(s: Pager, l: Sample, judge: Judge): Pager {
    if s.decided || l.words == 0 then s
    else
      var verdict := if l.bad then Alpha else judge(l.alpha, l.nibbles, l.words);
      s.(decided := true, detected := verdict, words := l.words,
         numeric := if verdict == Numeric then FirstOf(NumericText(l.nibbles), NUMERIC_CAPACITY) else s.numeric)
  }

  predicate IsAddress(received: Codeword) { received.v & 0x80000000 == 0 }

  function NewPage(s: Pager, w: Codeword, errors: nat): (r: Pager)
    ensures r.index == s.index
  {
    s.(func := FunctionOf(w.v), address := AddressOf(w.v, s.index), mode := HaveAddress, out := AddressOutput,
       errors := errors, newMessage := true, decided := false, detected := Unknown, idx := 0, data := 0,
       prevErr := 0, curErr := 0)
  }

  function FunctionOf(w: bv32): bv32 { (w >> 11) & 3 }

  function AddressOf(w: bv32, index: nat): bv32 {
    ((w >> 10) & 0x1FFFF8) | FrameNumber(index)
  }

  function FrameNumber(index: nat): bv32 { if index < 16 then (index / 2) as bv32 else 0 }

  function Message(s: Pager, l: Sample, w: Codeword, errors: nat): (Pager, Sample)
    requires s.idx < 7
  {
    var t := s.(mode := GettingMessage, out := MessageOutput, errors := s.errors + errors, prevErr := s.curErr,
                curErr := if errors >= 3 then 3 else errors, data := Joined(s.data, w, s.idx), idx := s.idx + 20);
    var (u, m) := Unpacked(t, l.(words := l.words + 1), s.idx);
    if !u.decided && |m.nibbles| + 5 <= MAX_NIBBLES then (u, m.(nibbles := m.nibbles + Nibbles(w)))
    else if u.decided && u.detected == Numeric && |u.numeric| + 5 <= NUMERIC_CAPACITY then
      (u.(numeric := u.numeric + NumericText(Nibbles(w))), m)
    else (u, m)
  }

  /** Between pages: a page starts, or the word is passed over. */
  function Searched(s: Pager, l: Sample, received: Codeword, w: Codeword, errors: nat): (r: (Pager, Sample))
    ensures r.0.index == s.index && (s.idx < 7 ==> r.0.idx < 7)
  {
    if IsAddress(received) && w != IDLE then (NewPage(s, w, errors), Sample([], 0, [], l.bad))
    else (if w == IDLE then s.(out := IdleOutput) else s, l)
  }

  /** One word of a batch: either the call stops in front of it, or it is consumed. */
  datatype Outcome = Stop(s: Pager) | Go(s: Pager, l: Sample)

  function Taken(s: Pager, l: Sample, received: Codeword, w: Codeword, errors: nat, judge: Judge): (r: Outcome)
    requires s.idx < 7
    ensures r.Go? ==> r.s.idx < 7 && r.s.index == s.index + 1
  {
    hide Settled, NumericText, Nibbles, IsAddress, FunctionOf, AddressOf, Unpacked, Joined;
    if s.mode == Clear then
      var (u, m) := Searched(s, l, received, w, errors);
      Go(u.(index := u.index + 1), m)
    else if IsAddress(received) then Stop(Settled(s, l, judge).(mode := Clear))
    else
      var (u, m) := Message(s, l, w, errors);
      Go(u.(index := u.index + 1), m)
  }

  // ----- one call

  /** The answer of the corrector, which its contract determines. */
  ghost function Answer(w: Codeword): (r: (nat, Codeword)) {
    if SyndromeOf(w) == CLEAN then (0, w)
    else if exists p, q :: IsPattern(p, q) && PairSyndrome(p, q) == SyndromeOf(w) then
      var p, q :| IsPattern(p, q) && PairSyndrome(p, q) == SyndromeOf(w);
      (Weight(q), Repaired(Repaired(w, q), p))
    else (3, w)
  }

  lemma AnswerIsOnly(w: Codeword, errors: nat, word: Codeword)
    requires IsRight(w, errors, word)
    ensures Answer(w) == (errors, word)
  {
    hide SyndromeOf, PairSyndrome, Repaired;
  }

  /** What a call clears before its loop. */
  function Opened(s: Pager): Pager {
    var continuing := s.mode != HaveAddress && s.out == MessageOutput && s.decided && s.detected == Numeric;
    s.(output := [], numeric := if continuing then s.numeric else [],
       newMessage := if s.mode != HaveAddress then false else s.newMessage)
  }

  /** The loop of a call from the current word on; the flag says that it stopped early. */
  ghost function Looped(s: Pager, l: Sample, batch: seq<Codeword>, judge: Judge): (r: (bool, Pager))
    requires s.idx < 7 && |batch| == BATCH
    decreases BATCH - s.index
  {
    hide Taken, Settled, Answer;
    if s.index >= BATCH then (false, if s.out == MessageOutput then Settled(s, l, judge) else s)
    else
      var (errors, w) := Answer(batch[s.index]);
      match Taken(s, l, batch[s.index], w, errors, judge)
      case Stop(t) => (true, t)
      case Go(t, m) => Looped(t, m, batch, judge)
  }

  ghost function Call(s: Pager, batch: seq<Codeword>, judge: Judge): (bool, Pager)
    requires s.idx < 7 && |batch| == BATCH
  {
    Looped(Opened(s), NO_SAMPLE, batch, judge)
  }

  // ----- what every call keeps

  /** The bounds of the counters and buffers. */
  predicate Inv(s: Pager) {
    s.idx < 7 && |s.numeric| <= 80 && s.index <= BATCH && s.curErr <= 3 && s.prevErr <= 3
  }

  predicate SampleInv(l: Sample) { |l.nibbles| <= 80 }

  lemma MessageKeeps(s: Pager, l: Sample, w: Codeword, errors: nat)
    requires Inv(s) && SampleInv(l)
    ensures var (t, m) := Message(s, l, w, errors); Inv(t) && SampleInv(m) && t.index == s.index
  {
    hide Joined, Nibbles, NumericText, Unpacked;
  }

  lemma TakenKeeps(s: Pager, l: Sample, received: Codeword, w: Codeword, errors: nat, judge: Judge)
    requires Inv(s) && SampleInv(l) && s.index < BATCH
    ensures match Taken(s, l, received, w, errors, judge)
            case Stop(t) => Inv(t) && t.index == s.index && s.mode != Clear && t.mode == Clear
            case Go(t, m) => Inv(t) && SampleInv(m) && t.index == s.index + 1
  {
    hide IsAddress, FunctionOf, AddressOf, Message, Settled;
    MessageKeeps(s, l, w, errors);
    SettledKeeps(s, l, judge);
  }

  /** Twice the words left, plus one while a page is open. */
  function Measure(s: Pager): int { 2 * (BATCH - s.index) + if s.mode != Clear then 1 else 0 }

  /** A call keeps the bounds, never moves backwards, and one that asks to be called again has used up some
      of the measure. */
  lemma {:induction false} LoopedKeeps(s: Pager, l: Sample, batch: seq<Codeword>, judge: Judge)
    requires Inv(s) && SampleInv(l) && |batch| == BATCH
    ensures var (more, t) := Looped(s, l, batch, judge);
            Inv(t) && t.index >= s.index && (more ==> 0 <= Measure(t) < Measure(s))
            && (more ==> t.mode == Clear && t.index < BATCH) && (!more ==> t.index == BATCH)
    decreases BATCH - s.index
  {
    hide Taken, Answer, Settled;
    if s.index >= BATCH {
      SettledKeeps(s, l, judge);
    } else {
      var (errors, w) := Answer(batch[s.index]);
      TakenKeeps(s, l, batch[s.index], w, errors, judge);
      match Taken(s, l, batch[s.index], w, errors, judge)
      case Stop(t) =>
      case Go(t, m) => LoopedKeeps(t, m, batch, judge);
    }
  }

  lemma SettledKeeps(s: Pager, l: Sample, judge: Judge)
    requires Inv(s)
    ensures Inv(Settled(s, l, judge)) && Settled(s, l, judge).index == s.index && Settled(s, l, judge).mode == s.mode
  {
    hide NumericText;
  }

  // ----- the caller's loop over one batch

  /** The states in which the calls for one batch return, first to last. */
  ghost function Calls(s: Pager, batch: seq<Codeword>, judge: Judge): (r: seq<Pager>)
    requires Inv(s) && |batch| == BATCH
    ensures |r| > 0 && Inv(r[|r| - 1]) && r[|r| - 1].index == BATCH
    decreases Measure(s) + 1
  {
    hide Looped;
    LoopedKeeps(Opened(s), NO_SAMPLE, batch, judge);
    var (more, t) := Call(s, batch, judge);
    if more then [t] + Calls(t, batch, judge) else [t]
  }

  class PocsagDecoder {
    const ecc: EccContainer
    var state: Pager

    ghost predicate Valid()
      reads this, ecc, ecc.ecs, ecc.bch
    {
      ecc.Valid() && Inv(state)
    }

    constructor (ecc: EccContainer)
      requires ecc.Valid()
      ensures Valid() && state == INITIAL && this.ecc == ecc
    {
      this.ecc, state := ecc, INITIAL;
    }

    /** The heuristic, at an address word or at the end of a batch. */
    method Settle(l: Sample, judge: Judge)
      modifies this
      ensures state == Settled(old(state), l, judge)
    {
      if !state.decided && l.words > 0 {
        var verdict := if l.bad then Alpha else judge(l.alpha, l.nibbles, l.words);
        state := state.(detected := verdict, decided := true, words := l.words);
        if verdict == Numeric {
          var numeric := [];
          var ni := 0;
          while ni < |l.nibbles| && |numeric| < NUMERIC_CAPACITY
            invariant ni <= |l.nibbles| && |numeric| == ni <= NUMERIC_CAPACITY
            invariant forall i :: 0 <= i < ni ==> numeric[i] == NumericChar(l.nibbles[i])
          {
            numeric := numeric + [NumericChar(l.nibbles[ni])];
            ni := ni + 1;
          }
          assert numeric == FirstOf(NumericText(l.nibbles), NUMERIC_CAPACITY);
          state := state.(numeric := numeric);
        }
      }
    }

    /** The character loop of a message word. */
    method Unpack(l: Sample, fromPrev: nat) returns (m: Sample)
      modifies this
      ensures (state, m) == Unpacked(old(state), l, fromPrev)
    {
      hide TopChar, DropChar, Reverse, Visible;
      m := l;
      var bitsFromPrev := fromPrev;
      while state.idx >= 7
        invariant Unpacked(state, m, bitsFromPrev) == Unpacked(old(state), l, fromPrev)
        decreases state.idx
      {
        var charErr;
        if bitsFromPrev >= 7 {
          charErr := state.prevErr;
          bitsFromPrev := bitsFromPrev - 7;
        } else if bitsFromPrev > 0 {
          charErr := Worse(state.prevErr, state.curErr);
          bitsFromPrev := 0;
        } else {
          charErr := state.curErr;
        }
        var c := Reverse(TopChar(state.data));
        state := state.(data := DropChar(state.data), idx := state.idx - 7);
        if !state.decided {
          m := m.(alpha := m.alpha + [c]);
        }
        if charErr >= 3 {
          state := state.(output := state.output + [QUESTION]);
          m := m.(bad := true);
        } else {
          state := state.(output := state.output + [Visible(c)]);
        }
      }
    }

    /** A message word. */
    method TakeMessage(l: Sample, w: Codeword, errors: nat) returns (m: Sample)
      requires state.idx < 7
      modifies this
      ensures (state, m) == Message(old(state), l, w, errors)
    {
      hide Joined, Nibble, NumericChar, Unpacked;
      m := l.(words := l.words + 1);
      var bitsFromPrev := state.idx;
      state := state.(mode := GettingMessage, out := MessageOutput, errors := state.errors + errors,
                      prevErr := state.curErr, curErr := if errors >= 3 then 3 else errors,
                      data := Joined(state.data, w, state.idx), idx := state.idx + 20);
      m := Unpack(m, bitsFromPrev);
      if !state.decided && |m.nibbles| + 5 <= MAX_NIBBLES {
        var nibbles := [];
        for n := 0 to 5
          invariant nibbles == Nibbles(w)[..n]
        {
          nibbles := nibbles + [Nibble(w, n)];
        }
        assert Nibbles(w)[..5] == Nibbles(w);
        m := m.(nibbles := m.nibbles + nibbles);
      } else if state.decided && state.detected == Numeric && |state.numeric| + 5 <= NUMERIC_CAPACITY {
        var text := [];
        for n := 0 to 5
          invariant text == NumericText(Nibbles(w))[..n]
        {
          text := text + [NumericChar(Nibble(w, n))];
        }
        assert NumericText(Nibbles(w))[..5] == NumericText(Nibbles(w));
        state := state.(numeric := state.numeric + text);
      }
    }

    method StartPage(w: Codeword, errors: nat)
      modifies this
      ensures state == NewPage(old(state), w, errors)
    {
      hide FunctionOf, AddressOf;
      state := state.(func := FunctionOf(w.v), address := AddressOf(w.v, state.index));
      state := state.(mode := HaveAddress, out := AddressOutput, errors := errors, newMessage := true);
      state := state.(decided := false, detected := Unknown, idx := 0, data := 0, prevErr := 0, curErr := 0);
    }

    /** STATE_CLEAR. */
    method Search(l: Sample, received: Codeword, w: Codeword, errors: nat) returns (m: Sample)
      modifies this
      ensures (state, m) == Searched(old(state), l, received, w, errors)
    {
      hide NewPage, IsAddress;
      m := l;
      if IsAddress(received) && w != IDLE {
        StartPage(w, errors);
        m := Sample([], 0, [], l.bad);
      } else if w == IDLE {
        state := state.(out := IdleOutput);
      }
    }

    /** What a call clears first. */
    method Open()
      modifies this
      ensures state == Opened(old(state))
    {
      var continuing := state.mode != HaveAddress && state.out == MessageOutput && state.decided && state.detected == Numeric;
      state := state.(output := []);
      if !continuing {
        state := state.(numeric := []);
      }
      if state.mode != HaveAddress {
        state := state.(newMessage := false);
      }
    }

    /** One codeword of the loop; true when the call is to return in front of it. */
    method Take(l: Sample, received: Codeword, judge: Judge) returns (stop: bool, m: Sample)
      requires ecc.Valid() && state.idx < 7
      modifies this
      ensures var (errors, w) := Answer(received);
              match Taken(old(state), l, received, w, errors, judge)
              case Stop(t) => stop && state == t
              case Go(t, n) => !stop && state == t && m == n
    {
      hide Message, Settled, IsAddress, Searched, Answer, IsRight;
      m := l;
      var errors, w := ecc.ErrorCorrect(received);
      AnswerIsOnly(received, errors, w);
      if state.mode == Clear {
        m := Search(l, received, w, errors);
      } else if IsAddress(received) {
        Settle(l, judge);
        state := state.(mode := Clear);
        return true, m;
      } else {
        m := TakeMessage(l, w, errors);
      }
      state := state.(index := state.index + 1);
      return false, m;
    }

    /** pocsag_decode_batch. */
    method DecodeBatch(batch: seq<Codeword>, judge: Judge) returns (more: bool)
      requires Valid() && |batch| == BATCH
      modifies this
      ensures Valid()
      ensures (more, state) == Call(old(state), batch, judge)
      ensures more ==> Measure(state) < Measure(old(state))
    {
      hide Taken, Settled, Answer, Inv, SampleInv, Measure, Looped, Opened;
      OpenedKeeps(state);
      NoSampleFits();
      LoopedKeepsAll(Opened(state), NO_SAMPLE, batch, judge);
      ghost var before := state;
      Open();
      var l := NO_SAMPLE;
      while state.index < BATCH
        invariant state.idx < 7
        invariant Looped(state, l, batch, judge) == Call(before, batch, judge)
        decreases BATCH - state.index
      {
        var stop;
        LoopedStep(state, l, batch, judge);
        stop, l := Take(l, batch[state.index], judge);
        if stop {
          return true;
        }
      }
      LoopedEnd(state, l, batch, judge);
      if state.out == MessageOutput {
        Settle(l, judge);
      }
      return false;
    }

    /** handle_packet: calls until the batch is used up. */
    method HandlePacket(batch: seq<Codeword>, judge: Judge) returns (states: seq<Pager>)
      requires Valid() && |batch| == BATCH
      modifies this
      ensures Valid()
      ensures states == Calls(old(state).(index := 0, errors := 0), batch, judge)
      ensures state == states[|states| - 1]
    {
      hide Call, Calls, Inv, Measure;
      RewoundKeeps(state);
      state := state.(index := 0, errors := 0);
      ghost var start := state;
      states := [];
      CallsStep(state, batch, judge);
      var more := DecodeBatch(batch, judge);
      states := [state];
      MeasureFits(state);
      Regroup3([], [state], []);
      while more
        invariant Valid()
        invariant |states| > 0 && state == states[|states| - 1]
        invariant Calls(start, batch, judge) == states + if more then Calls(state, batch, judge) else []
        invariant Measure(state) >= 0
        decreases if more then Measure(state) + 1 else 0
      {
        ghost var seen := states;
        CallsStep(state, batch, judge);
        more := DecodeBatch(batch, judge);
        states := states + [state];
        MeasureFits(state);
        Regroup3(seen, [state], if more then Calls(state, batch, judge) else []);
      }
    }
  }

  lemma Regroup3<T>(a: seq<T>, b: seq<T>, c: seq<T>)
    ensures a + b + c == a + (b + c)
    ensures c == [] ==> a + b + c == a + b
  {
  }

  lemma MeasureFits(s: Pager)
    requires Inv(s)
    ensures Measure(s) >= 0
  {
  }

  lemma CallsStep(s: Pager, batch: seq<Codeword>, judge: Judge)
    requires Inv(s) && |batch| == BATCH
    ensures s.idx < 7
    ensures var (more, t) := Call(s, batch, judge);
            Inv(t) && Calls(s, batch, judge) == [t] + if more then Calls(t, batch, judge) else []
  {
    hide Looped;
    OpenedKeeps(s);
    LoopedKeeps(Opened(s), NO_SAMPLE, batch, judge);
  }

  lemma NoSampleFits()
    ensures SampleInv(NO_SAMPLE)
  {
  }

  lemma LoopedStep(s: Pager, l: Sample, batch: seq<Codeword>, judge: Judge)
    requires s.idx < 7 && |batch| == BATCH && s.index < BATCH
    ensures var (errors, w) := Answer(batch[s.index]);
            match Taken(s, l, batch[s.index], w, errors, judge)
            case Stop(t) => Looped(s, l, batch, judge) == (true, t)
            case Go(t, m) => Looped(s, l, batch, judge) == Looped(t, m, batch, judge)
  {
    hide Taken, Answer;
  }

  lemma LoopedEnd(s: Pager, l: Sample, batch: seq<Codeword>, judge: Judge)
    requires s.idx < 7 && |batch| == BATCH && s.index >= BATCH
    ensures Looped(s, l, batch, judge) == (false, if s.out == MessageOutput then Settled(s, l, judge) else s)
  {
    hide Settled;
  }

  lemma OpenedKeeps(s: Pager)
    requires Inv(s)
    ensures s.idx < 7 && Measure(Opened(s)) == Measure(s)
    ensures Inv(Opened(s)) && Opened(s).index == s.index && Opened(s).mode == s.mode && Opened(s).idx == s.idx
  {
  }

  lemma RewoundKeeps(s: Pager)
    requires Inv(s)
    ensures Inv(s.(index := 0, errors := 0))
  {
  }

  lemma LoopedKeepsAll(s: Pager, l: Sample, batch: seq<Codeword>, judge: Judge)
    requires Inv(s) && SampleInv(l) && |batch| == BATCH
    ensures Inv(Looped(s, l, batch, judge).1)
    ensures Looped(s, l, batch, judge).0 ==> Measure(Looped(s, l, batch, judge).1) < Measure(s)
  {
    hide Looped, Inv, SampleInv;
    LoopedKeeps(s, l, batch, judge);
  }
}
