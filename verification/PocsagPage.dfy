/** A POCSAG page comes back: what the batch decoder shows for an encoded page, with up to two bit errors in
    the correctable part of every word, is the message. */
module PocsagPage {
  import opened Bits
  import opened PocsagCode
  import opened PocsagWord
  import opened PocsagEcc
  import opened PocsagTx
  import opened PocsagRx

  // ----- one word carries its characters, phase by phase

  /** The part of a character that has arrived when its last `r` bits are still to come. */
  function Pending(y: byte, r: nat): bv64
    requires r <= 6
  {
    if r == 0 then 0 else ((y as bv64) >> r) << (57 + r)
  }

  /** The part of a character that is still to be sent when `r` of its bits are left. */
  function Leftover(y: byte, r: nat): bv32
    requires r <= 6
  {
    if r == 0 then 0 else Placed(0, y, 31 - r)
  }

  lemma Phase0(c: byte, y1: byte, y2: byte, y3: byte)
    requires c < 0x80 && y1 < 0x80 && y2 < 0x80 && y3 < 0x80
    ensures var d := Joined(Pending(c, 0), Sealed(Placed(Placed(Placed(Leftover(c, 0), y1, 24), y2, 17), y3, 10)), 0);
            TopChar(d) == y1 && TopChar(DropChar(d)) == y2 && DropChar(DropChar(d)) == Pending(y3, 1)
  {
  }

  lemma Phase1(c: byte, y1: byte, y2: byte, y3: byte)
    requires c < 0x80 && y1 < 0x80 && y2 < 0x80 && y3 < 0x80
    ensures var d := Joined(Pending(c, 1), Sealed(Placed(Placed(Placed(Leftover(c, 1), y1, 23), y2, 16), y3, 9)), 6);
            TopChar(d) == c && TopChar(DropChar(d)) == y1 && TopChar(DropChar(DropChar(d))) == y2 && DropChar(DropChar(DropChar(d))) == Pending(y3, 2)
  {
  }

  lemma Phase2(c: byte, y1: byte, y2: byte, y3: byte)
    requires c < 0x80 && y1 < 0x80 && y2 < 0x80 && y3 < 0x80
    ensures var d := Joined(Pending(c, 2), Sealed(Placed(Placed(Placed(Leftover(c, 2), y1, 22), y2, 15), y3, 8)), 5);
            TopChar(d) == c && TopChar(DropChar(d)) == y1 && TopChar(DropChar(DropChar(d))) == y2 && DropChar(DropChar(DropChar(d))) == Pending(y3, 3)
  {
  }

  lemma Phase3(c: byte, y1: byte, y2: byte, y3: byte)
    requires c < 0x80 && y1 < 0x80 && y2 < 0x80 && y3 < 0x80
    ensures var d := Joined(Pending(c, 3), Sealed(Placed(Placed(Placed(Leftover(c, 3), y1, 21), y2, 14), y3, 7)), 4);
            TopChar(d) == c && TopChar(DropChar(d)) == y1 && TopChar(DropChar(DropChar(d))) == y2 && DropChar(DropChar(DropChar(d))) == Pending(y3, 4)
  {
  }

  lemma Phase4(c: byte, y1: byte, y2: byte, y3: byte)
    requires c < 0x80 && y1 < 0x80 && y2 < 0x80 && y3 < 0x80
    ensures var d := Joined(Pending(c, 4), Sealed(Placed(Placed(Placed(Leftover(c, 4), y1, 20), y2, 13), y3, 6)), 3);
            TopChar(d) == c && TopChar(DropChar(d)) == y1 && TopChar(DropChar(DropChar(d))) == y2 && DropChar(DropChar(DropChar(d))) == Pending(y3, 5)
  {
  }

  lemma Phase5(c: byte, y1: byte, y2: byte, y3: byte)
    requires c < 0x80 && y1 < 0x80 && y2 < 0x80 && y3 < 0x80
    ensures var d := Joined(Pending(c, 5), Sealed(Placed(Placed(Placed(Leftover(c, 5), y1, 19), y2, 12), y3, 5)), 2);
            TopChar(d) == c && TopChar(DropChar(d)) == y1 && TopChar(DropChar(DropChar(d))) == y2 && DropChar(DropChar(DropChar(d))) == Pending(y3, 6)
  {
  }

  lemma Phase6(c: byte, y1: byte, y2: byte)
    requires c < 0x80 && y1 < 0x80 && y2 < 0x80
    ensures var d := Joined(Pending(c, 6), Sealed(Placed(Placed(Leftover(c, 6), y1, 18), y2, 11)), 1);
            TopChar(d) == c && TopChar(DropChar(d)) == y1 && TopChar(DropChar(DropChar(d))) == y2 && DropChar(DropChar(DropChar(d))) == Pending(y2, 0)
  {
  }

  // ----- transmitter and receiver in step

  /** Too far from every codeword for the corrector. */
  ghost predicate Uncorrectable(w: Codeword) { forall c: Codeword :: SyndromeOf(c) == CLEAN ==> Distance(w, c) > 2 }

  /** Character `i` of a message has a bit in message word `j`: seven bits a character, twenty a word. */
  predicate Shares(i: nat, j: nat) { 7 * i < 20 * j + 20 && 20 * j < 7 * i + 7 }

  /** One of the words that carry character `i` was heard beyond correction; `heard` is the words behind the address. */
  ghost predicate Spoilt(heard: seq<Codeword>, i: nat) {
    exists j :: 0 <= j < |heard| && Uncorrectable(heard[j]) && Shares(i, j)
  }

  /** How character `i` is shown. */
  ghost function ShownAt(m: seq<byte>, heard: seq<Codeword>, i: nat): byte {
    if Spoilt(heard, i) then QUESTION else Visible(CharAt(m, i))
  }

  ghost function Between(m: seq<byte>, heard: seq<Codeword>, i: nat, j: nat): (r: seq<byte>)
    requires i <= j
    ensures |r| == j - i
  {
    seq(j - i, k requires 0 <= k < j - i => ShownAt(m, heard, i + k))
  }

  /** Characters sent in full. */
  function Whole(t: Tx): nat
    requires Ready(t) && (t.bitIdx < 31 ==> t.charIdx > 0)
  {
    if t.bitIdx < 31 then t.charIdx - 1 else t.charIdx
  }

  /** Nothing below the top `idx` bits. */
  predicate Short(data: bv64, idx: nat)
    requires idx < 7
  {
    if idx == 0 then data == 0 else data << idx == 0
  }

  /** The last of the first `j` message words was beyond correction. */
  ghost predicate Bad(heard: seq<Codeword>, j: nat) { 1 <= j <= |heard| && Uncorrectable(heard[j - 1]) }

  function Taken7(t: Tx): nat
    requires Ready(t)
  {
    if t.bitIdx == 31 then 0 else t.bitIdx - 24
  }

  /** Behind `j` message words the transmitter holds the bits of its last character that the receiver lacks; what the
      receiver has of that character is right unless the last word was bad. */
  ghost predicate Linked(m: seq<byte>, t: Tx, s: Pager, heard: seq<Codeword>, j: nat) {
    && Ready(t)
    && (t.bitIdx < 31 ==> t.charIdx > 0)
    && t.last == (if t.charIdx == 0 then 0 else Reverse(CharAt(m, t.charIdx - 1)))
    && t.codeword == Leftover(t.last, 31 - t.bitIdx)
    && 7 * t.charIdx == 20 * j + 31 - t.bitIdx
    && s.idx == Taken7(t) && Short(s.data, s.idx)
    && (if Bad(heard, j) then s.curErr == 3 else s.curErr <= 2 && s.data == Pending(t.last, 31 - t.bitIdx))
  }

  lemma CharBack(m: seq<byte>, i: nat)
    ensures Reverse(CharAt(m, i)) < 0x80 && Reverse(Reverse(CharAt(m, i))) == CharAt(m, i)
  {
    ReverseTwice(CharAt(m, i));
  }

  /** Three characters more, or two when six bits are left over. */
  lemma FilledIs(m: seq<byte>, t: Tx, y1: byte, y2: byte, y3: byte)
    requires Ready(t)
    requires y1 == Reverse(CharAt(m, t.charIdx)) && y2 == Reverse(CharAt(m, t.charIdx + 1)) && y3 == Reverse(CharAt(m, t.charIdx + 2))
    ensures t.bitIdx > 25 ==>
      Filled(m, t) == Tx(Placed(Placed(Placed(t.codeword, y1, t.bitIdx - 7), y2, t.bitIdx - 14), y3, t.bitIdx - 21),
                         t.bitIdx - 21, t.charIdx + 3, y3)
    ensures t.bitIdx == 25 ==>
      Filled(m, t) == Tx(Placed(Placed(t.codeword, y1, t.bitIdx - 7), y2, t.bitIdx - 14), t.bitIdx - 14, t.charIdx + 2, y2)
  {
    hide Placed, Reverse, CharAt;
    var u := PutChar(m, t);
    var v := PutChar(m, u);
    assert Filled(m, t) == Filled(m, u);
    if t.bitIdx > 25 {
      assert Filled(m, u) == Filled(m, v);
      assert Filled(m, v) == PutChar(m, v);
    } else {
      assert Filled(m, u) == v;
    }
  }

  /** A character as a word of that error level shows it. */
  function Marked(y: byte, error: nat): byte { if error >= 3 then QUESTION else Visible(Reverse(y)) }

  /** One character out of the collected bits. */
  lemma UnpackOne(s: Pager, l: Sample, fromPrev: nat) returns (m: Sample)
    requires s.idx >= 7
    ensures Unpacked(s, l, fromPrev) ==
            Unpacked(s.(data := DropChar(s.data), idx := s.idx - 7, output := s.output + [Marked(TopChar(s.data), CharError(s, fromPrev))]),
                     m, if fromPrev >= 7 then fromPrev - 7 else 0)
  {
    hide TopChar, DropChar, Visible, Reverse, CharError;
    var c := Reverse(TopChar(s.data));
    m := l.(alpha := if s.decided then l.alpha else l.alpha + [c], bad := l.bad || CharError(s, fromPrev) >= 3);
  }

  lemma UnpackNone(s: Pager, l: Sample, fromPrev: nat)
    requires s.idx < 7
    ensures Unpacked(s, l, fromPrev) == (s, l)
  {
  }

  /** All characters of fourteen to twenty-seven collected bits: only the first can have bits of an earlier word. */
  lemma UnpackAll(s: Pager, l: Sample, fromPrev: nat) returns (m: Sample)
    requires 14 <= s.idx < 28 && fromPrev < 7
    ensures var d := s.data;
            var a, b, c := Marked(TopChar(d), CharError(s, fromPrev)), Marked(TopChar(DropChar(d)), s.curErr),
                           Marked(TopChar(DropChar(DropChar(d))), s.curErr);
            Unpacked(s, l, fromPrev) ==
              if s.idx < 21 then (s.(data := DropChar(DropChar(d)), idx := s.idx - 14, output := s.output + [a, b]), m)
              else (s.(data := DropChar(DropChar(DropChar(d))), idx := s.idx - 21, output := s.output + [a, b, c]), m)
  {
    hide TopChar, DropChar, Marked, Unpacked;
    var d := s.data;
    var a, b, c := Marked(TopChar(d), CharError(s, fromPrev)), Marked(TopChar(DropChar(d)), s.curErr),
                   Marked(TopChar(DropChar(DropChar(d))), s.curErr);
    var l1 := UnpackOne(s, l, fromPrev);
    var s1 := s.(data := DropChar(d), idx := s.idx - 7, output := s.output + [a]);
    var l2 := UnpackOne(s1, l1, 0);
    var s2 := s1.(data := DropChar(DropChar(d)), idx := s.idx - 14, output := s.output + [a] + [b]);
    assert s.output + [a] + [b] == s.output + [a, b];
    if s.idx < 21 {
      UnpackNone(s2, l2, 0);
      m := l2;
    } else {
      var l3 := UnpackOne(s2, l2, 0);
      assert s.output + [a, b] + [c] == s.output + [a, b, c];
      UnpackNone(s2.(data := DropChar(DropChar(DropChar(d))), idx := s.idx - 21, output := s.output + [a, b, c]), l3, 0);
      m := l3;
    }
  }

  lemma FieldOfTop(a: Codeword, b: Codeword)
    requires Top(a) == Top(b)
    ensures Field(a) == Field(b)
  {
    hide Field, Top;
    FieldIsOfTop(a);
    FieldIsOfTop(b);
  }

  lemma FieldIsOfTop(a: Codeword)
    ensures Field(Top(a)) == Field(a)
  {
  }

  lemma JoinedOfField(data: bv64, v: Codeword, w: Codeword, idx: nat)
    requires idx < 7 && Field(v) == Field(w)
    ensures Joined(data, v, idx) == Joined(data, w, idx)
  {
    hide JoinedField, Field;
  }

  /** Where the next word starts. */
  lemma CarriedIs(m: seq<byte>, t: Tx, y2: byte, y3: byte)
    requires Ready(t) && t.bitIdx > 24
    requires y2 == Reverse(CharAt(m, t.charIdx + 1)) && y3 == Reverse(CharAt(m, t.charIdx + 2))
    ensures Ready(Carried(Filled(m, t)))
    ensures t.bitIdx > 25 ==> Carried(Filled(m, t)) == Tx(Leftover(y3, 32 - t.bitIdx), t.bitIdx - 1, t.charIdx + 3, y3)
    ensures t.bitIdx == 25 ==> Carried(Filled(m, t)) == Tx(0, 31, t.charIdx + 2, y2)
  {
    hide Placed, Reverse, CharAt, Filled;
    FilledIs(m, t, Reverse(CharAt(m, t.charIdx)), y2, y3);
  }

  /** What the receiver has collected behind a message word: the pending character, the new ones, and
      the part of the last one. */
  lemma WordCarries(m: seq<byte>, t: Tx, data: bv64, w: Codeword, y1: byte, y2: byte, y3: byte)
    requires Ready(t) && t.last < 0x80
    requires t.codeword == Leftover(t.last, 31 - t.bitIdx) && data == Pending(t.last, 31 - t.bitIdx)
    requires y1 == Reverse(CharAt(m, t.charIdx)) && y2 == Reverse(CharAt(m, t.charIdx + 1)) && y3 == Reverse(CharAt(m, t.charIdx + 2))
    requires Field(w) == Field(Sealed(Filled(m, t).codeword))
    ensures t.bitIdx == 31 ==>
      var d := Joined(data, w, 0);
      TopChar(d) == y1 && TopChar(DropChar(d)) == y2 && DropChar(DropChar(d)) == Pending(y3, 1)
    ensures 25 < t.bitIdx < 31 ==>
      var d := Joined(data, w, t.bitIdx - 24);
      TopChar(d) == t.last && TopChar(DropChar(d)) == y1 && TopChar(DropChar(DropChar(d))) == y2 &&
      DropChar(DropChar(DropChar(d))) == Pending(y3, 32 - t.bitIdx)
    ensures t.bitIdx == 25 ==>
      var d := Joined(data, w, 1);
      TopChar(d) == t.last && TopChar(DropChar(d)) == y1 && TopChar(DropChar(DropChar(d))) == y2 &&
      DropChar(DropChar(DropChar(d))) == Pending(y2, 0)
  {
    hide Placed, Reverse, CharAt, Filled, Sealed, Field, TopChar, DropChar, Pending, Leftover, Joined;
    FilledIs(m, t, y1, y2, y3);
    JoinedOfField(data, w, Sealed(Filled(m, t).codeword), if t.bitIdx == 31 then 0 else t.bitIdx - 24);
    CharBack(m, t.charIdx);
    CharBack(m, t.charIdx + 1);
    CharBack(m, t.charIdx + 2);
    if t.bitIdx == 31 {
      Phase0(t.last, y1, y2, y3);
    } else if t.bitIdx == 30 {
      Phase1(t.last, y1, y2, y3);
    } else if t.bitIdx == 29 {
      Phase2(t.last, y1, y2, y3);
    } else if t.bitIdx == 28 {
      Phase3(t.last, y1, y2, y3);
    } else if t.bitIdx == 27 {
      Phase4(t.last, y1, y2, y3);
    } else if t.bitIdx == 26 {
      Phase5(t.last, y1, y2, y3);
    } else {
      Phase6(t.last, y1, y2);
    }
  }

  lemma BetweenTwo(m: seq<byte>, heard: seq<Codeword>, i: nat)
    ensures Between(m, heard, i, i + 2) == [ShownAt(m, heard, i), ShownAt(m, heard, i + 1)]
    ensures Between(m, heard, i, i + 3) == [ShownAt(m, heard, i), ShownAt(m, heard, i + 1), ShownAt(m, heard, i + 2)]
  {
    hide ShownAt;
  }

  /** A character within one word is spoilt by it alone. */
  lemma WithinWord(heard: seq<Codeword>, i: nat, j: nat)
    requires j < |heard| && 20 * j <= 7 * i <= 20 * j + 13
    ensures Spoilt(heard, i) <==> Uncorrectable(heard[j])
  {
    hide Uncorrectable;
    assert Shares(i, j) && forall x :: 0 <= x < |heard| && Shares(i, x) ==> x == j;
  }

  /** A character across the start of a word is spoilt by it or by the one in front. */
  lemma AcrossWords(heard: seq<Codeword>, i: nat, j: nat)
    requires 0 < j < |heard| && 20 * j - 7 < 7 * i < 20 * j
    ensures Spoilt(heard, i) <==> Uncorrectable(heard[j - 1]) || Uncorrectable(heard[j])
  {
    hide Uncorrectable;
    assert Shares(i, j - 1) && Shares(i, j) && forall x :: 0 <= x < |heard| && Shares(i, x) ==> x == j - 1 || x == j;
  }

  /** The sampling for the heuristic does not touch the characters. */
  lemma MessageIsUnpacked(s: Pager, l: Sample, w: Codeword, errors: nat)
    requires s.idx < 7
    ensures var t := s.(mode := GettingMessage, out := MessageOutput, errors := s.errors + errors, prevErr := s.curErr,
                        curErr := if errors >= 3 then 3 else errors, data := Joined(s.data, w, s.idx), idx := s.idx + 20);
            var u := Unpacked(t, l.(words := l.words + 1), s.idx).0;
            Message(s, l, w, errors).0 == u.(numeric := Message(s, l, w, errors).0.numeric)
  {
    hide Joined, Unpacked, NumericText, Nibbles;
  }

  predicate OutBySeven(data: bv64) { data << 7 == 0 }

  lemma ShiftedOut(data: bv64, x: bv64)
    requires OutBySeven(data)
    ensures DropChar(Over(data, x)) == DropChar(x)
  {
  }

  lemma ShortIsShifted(data: bv64, idx: nat)
    requires idx < 7 && Short(data, idx)
    ensures OutBySeven(data)
  {
    if idx == 0 {
    } else if idx == 1 {
    } else if idx == 2 {
    } else if idx == 3 {
    } else if idx == 4 {
    } else if idx == 5 {
    }
  }

  lemma ForgetsField(data: bv64, e: bv64, f: bv32, idx: nat)
    requires idx < 7 && OutBySeven(data) && OutBySeven(e)
    ensures DropChar(JoinedField(data, f, idx)) == DropChar(JoinedField(e, f, idx))
  {
    hide DropChar, Slid, OutBySeven, Over;
    ShiftedOut(data, Slid(f, idx));
    ShiftedOut(e, Slid(f, idx));
  }

  /** Behind the first character of a word nothing is left of the bits in front of it. */
  lemma Forgets(data: bv64, e: bv64, w: Codeword, idx: nat)
    requires idx < 7 && Short(data, idx) && Short(e, idx)
    ensures DropChar(Joined(data, w, idx)) == DropChar(Joined(e, w, idx))
  {
    hide Short, DropChar, Field, JoinedField, OutBySeven;
    ShortIsShifted(data, idx);
    ShortIsShifted(e, idx);
    ForgetsField(data, e, Field(w).v, idx);
  }

  lemma ShortPending(y: byte, r: nat)
    requires y < 0x80 && r <= 6
    ensures Short(Pending(y, r), if r == 0 then 0 else 7 - r)
  {
    if r == 0 {
    } else if r == 1 {
    } else if r == 2 {
    } else if r == 3 {
    } else if r == 4 {
    } else if r == 5 {
    }
  }

  lemma FieldFits(w: Codeword)
    ensures Field(w).v < 0x100000
  {
  }

  lemma ShortField0(data: bv64, f: bv32)
    requires Short(data, 0) && f < 0x100000
    ensures Short(DropChar(DropChar(JoinedField(data, f, 0))), 6)
  {
  }

  lemma ShortField1(data: bv64, f: bv32)
    requires Short(data, 1) && f < 0x100000
    ensures Short(DropChar(DropChar(DropChar(JoinedField(data, f, 1)))), 0)
  {
  }

  lemma ShortField2(data: bv64, f: bv32)
    requires Short(data, 2) && f < 0x100000
    ensures Short(DropChar(DropChar(DropChar(JoinedField(data, f, 2)))), 1)
  {
  }

  lemma ShortField3(data: bv64, f: bv32)
    requires Short(data, 3) && f < 0x100000
    ensures Short(DropChar(DropChar(DropChar(JoinedField(data, f, 3)))), 2)
  {
  }

  lemma ShortField4(data: bv64, f: bv32)
    requires Short(data, 4) && f < 0x100000
    ensures Short(DropChar(DropChar(DropChar(JoinedField(data, f, 4)))), 3)
  {
  }

  lemma ShortField5(data: bv64, f: bv32)
    requires Short(data, 5) && f < 0x100000
    ensures Short(DropChar(DropChar(DropChar(JoinedField(data, f, 5)))), 4)
  {
  }

  lemma ShortField6(data: bv64, f: bv32)
    requires Short(data, 6) && f < 0x100000
    ensures Short(DropChar(DropChar(DropChar(JoinedField(data, f, 6)))), 5)
  {
  }

  lemma ShortField(data: bv64, f: bv32, idx: nat)
    requires idx < 7 && Short(data, idx) && f < 0x100000
    ensures idx == 0 ==> Short(DropChar(DropChar(JoinedField(data, f, idx))), 6)
    ensures idx > 0 ==> Short(DropChar(DropChar(DropChar(JoinedField(data, f, idx)))), idx - 1)
  {
    hide *;
    if idx == 0 {
      ShortField0(data, f);
    } else if idx == 1 {
      ShortField1(data, f);
    } else if idx == 2 {
      ShortField2(data, f);
    } else if idx == 3 {
      ShortField3(data, f);
    } else if idx == 4 {
      ShortField4(data, f);
    } else if idx == 5 {
      ShortField5(data, f);
    } else {
      ShortField6(data, f);
    }
  }

  /** What stays of a word is short, whatever the word. */
  lemma ShortRest(data: bv64, w: Codeword, idx: nat)
    requires idx < 7 && Short(data, idx)
    ensures idx == 0 ==> Short(DropChar(DropChar(Joined(data, w, idx))), 6)
    ensures idx > 0 ==> Short(DropChar(DropChar(DropChar(Joined(data, w, idx)))), idx - 1)
  {
    hide Short, DropChar, Field, JoinedField;
    FieldFits(w);
    ShortField(data, Field(w).v, idx);
  }

  /** What a message word shows and leaves, in terms of the collected bits. */
  lemma MessageShows(s: Pager, l: Sample, w: Codeword, errors: nat)
    requires s.idx < 7
    ensures var u := Message(s, l, w, errors).0; var d := Joined(s.data, w, s.idx);
            var e := if errors >= 3 then 3 else errors; var f := if s.idx > 0 then Worse(s.curErr, e) else e;
            && u.func == s.func && u.address == s.address && u.index == s.index
            && u.mode == GettingMessage && u.out == MessageOutput && u.curErr == e
            && u.idx == (if s.idx == 0 then 6 else s.idx - 1)
            && u.data == (if s.idx == 0 then DropChar(DropChar(d)) else DropChar(DropChar(DropChar(d))))
            && u.output == s.output + (if s.idx == 0 then [Marked(TopChar(d), f), Marked(TopChar(DropChar(d)), e)]
                                       else [Marked(TopChar(d), f), Marked(TopChar(DropChar(d)), e), Marked(TopChar(DropChar(DropChar(d))), e)])
  {
    hide TopChar, DropChar, Joined, Unpacked, Message, Marked, Worse, CharError;
    MessageIsUnpacked(s, l, w, errors);
    var j := s.(mode := GettingMessage, out := MessageOutput, errors := s.errors + errors, prevErr := s.curErr,
                curErr := if errors >= 3 then 3 else errors, data := Joined(s.data, w, s.idx), idx := s.idx + 20);
    FirstError(j, s.idx);
    var n := UnpackAll(j, l.(words := l.words + 1), s.idx);
  }

  lemma FirstError(s: Pager, fromPrev: nat)
    requires fromPrev < 7
    ensures CharError(s, fromPrev) == if fromPrev > 0 then Worse(s.prevErr, s.curErr) else s.curErr
  {
  }

  /** The characters of a message word and the bits that stay: of a good word, the sent ones, but for a first
      character that a bad word began; of a bad word, none. */
  lemma MessageChars(m: seq<byte>, t: Tx, s: Pager, l: Sample, heard: seq<Codeword>, j: nat, w: Codeword, errors: nat,
                     y1: byte, y2: byte, y3: byte)
    requires Linked(m, t, s, heard, j) && s.idx < 7
    requires errors <= 2 ==> Top(w) == Top(Sealed(Filled(m, t).codeword))
    requires y1 == Reverse(CharAt(m, t.charIdx)) && y2 == Reverse(CharAt(m, t.charIdx + 1)) && y3 == Reverse(CharAt(m, t.charIdx + 2))
    ensures var u := Message(s, l, w, errors).0; var e := if errors >= 3 then 3 else errors;
            && u.func == s.func && u.address == s.address && u.index == s.index
            && u.mode == GettingMessage && u.out == MessageOutput && u.curErr == e
            && u.idx == (if t.bitIdx == 25 then 0 else if t.bitIdx == 31 then 6 else t.bitIdx - 25) && Short(u.data, u.idx)
            && (errors <= 2 ==> u.data == (if t.bitIdx == 25 then Pending(y2, 0) else Pending(y3, 32 - t.bitIdx)))
            && u.output == s.output + if t.bitIdx == 31 then [Marked(y1, e), Marked(y2, e)]
                                      else [Marked(t.last, if Bad(heard, j) then 3 else e), Marked(y1, e), Marked(y2, e)]
  {
    hide Placed, Reverse, CharAt, Filled, Sealed, Field, TopChar, DropChar, Pending, Leftover, Joined, Message, Visible, Top,
         Short, Uncorrectable;
    MessageShows(s, l, w, errors);
    ShortRest(s.data, w, s.idx);
    LastFits(m, t);
    if errors <= 2 {
      FieldOfTop(w, Sealed(Filled(m, t).codeword));
      var e := Pending(t.last, 31 - t.bitIdx);
      WordCarries(m, t, e, w, y1, y2, y3);
      ShortPending(t.last, 31 - t.bitIdx);
      Forgets(s.data, e, w, s.idx);
      if t.bitIdx == 31 {
        NoPending(s.data, t.last);
      }
    }
  }

  lemma NoPending(data: bv64, y: byte)
    requires Short(data, 0)
    ensures data == Pending(y, 0)
  {
  }

  lemma NothingLeft(y: byte)
    ensures Leftover(y, 0) == 0 && Pending(y, 0) == 0
  {
  }

  /** One message word: the receiver shows the characters that are now complete, spoilt ones as such, and the two stay
      in step. */
  lemma MessageStep(m: seq<byte>, t: Tx, s: Pager, l: Sample, heard: seq<Codeword>, j: nat, w: Codeword, errors: nat)
    requires Linked(m, t, s, heard, j) && s.idx < 7 && j < |heard|
    requires if Uncorrectable(heard[j]) then errors == 3 else errors <= 2 && Top(w) == Top(Sealed(Filled(m, t).codeword))
    ensures var u := Message(s, l, w, errors).0;
            var n := Carried(Filled(m, t));
            && Linked(m, n, u, heard, j + 1) && Whole(t) <= Whole(n)
            && u.output == s.output + Between(m, heard, Whole(t), Whole(n))
            && u.func == s.func && u.address == s.address && u.index == s.index
            && u.mode == GettingMessage && u.out == MessageOutput
  {
    hide Placed, Reverse, CharAt, Filled, Sealed, Pending, Leftover, Message, Between, Visible, Top, Carried, Uncorrectable, Short,
         Spoilt;
    var y1, y2, y3 := Reverse(CharAt(m, t.charIdx)), Reverse(CharAt(m, t.charIdx + 1)), Reverse(CharAt(m, t.charIdx + 2));
    MessageChars(m, t, s, l, heard, j, w, errors, y1, y2, y3);
    CarriedIs(m, t, y2, y3);
    NothingLeft(y2);
    CharBack(m, t.charIdx);
    CharBack(m, t.charIdx + 1);
    var i := Whole(t);
    BetweenTwo(m, heard, i);
    if t.bitIdx < 31 {
      CharBack(m, t.charIdx - 1);
      AcrossWords(heard, i, j);
      WithinWord(heard, i + 1, j);
      WithinWord(heard, i + 2, j);
    } else {
      WithinWord(heard, i, j);
      WithinWord(heard, i + 1, j);
    }
  }

  lemma LastFits(m: seq<byte>, t: Tx)
    requires t.last == (if t.charIdx == 0 then 0 else Reverse(CharAt(m, t.charIdx - 1)))
    ensures t.last < 0x80
  {
    hide CharAt;
    if t.charIdx > 0 {
      CharBack(m, t.charIdx - 1);
    }
  }

  // ----- words with errors

  /** Up to two errors among the information bits behind the first. */
  predicate Noisy(received: Codeword, sent: Codeword) {
    && Distance(received, sent) <= 2
    && At(received, 0) == At(sent, 0)
    && (forall p :: 21 <= p < 32 ==> At(received, p) == At(sent, p))
  }

  lemma AnswerIsRight(w: Codeword)
    ensures IsRight(w, Answer(w).0, Answer(w).1)
  {
    hide Partial, PairSyndrome, Repaired;
    if SyndromeOf(w) == CLEAN {
      CleanIsRight(w);
    } else if exists p, q :: IsPattern(p, q) && PairSyndrome(p, q) == SyndromeOf(w) {
      var p, q :| IsPattern(p, q) && PairSyndrome(p, q) == SyndromeOf(w);
      OnlyPattern(w, p, q);
      AnswerIsOnly(w, Weight(q), Repaired(Repaired(w, q), p));
    }
  }

  /** A noisy codeword is heard exactly. */
  lemma HeardExactly(received: Codeword, sent: Codeword)
    requires SyndromeOf(sent) == CLEAN && Noisy(received, sent)
    ensures Answer(received).1 == sent && Answer(received).0 <= 2
    ensures IsAddress(received) == IsAddress(sent)
  {
    hide Partial, Answer, At, Flip, Col, Plus, IsAddress, CLEAN;
    var (errors, word) := Answer(received);
    AnswerIsRight(received);
    CorrectsTwoErrors(sent, received, errors, word);
    var p, q := ErrorPattern(received, sent, 31);
    NoColumn();
    PlusClean(PairSyndrome(p, q));
    PlusClean(CLEAN);
    if p != NONE {
      assert IsPattern(p, q) && PairSyndrome(p, q) == SyndromeOf(received);
      RepairIsExact(received, sent, p, q);
    } else {
      PartialNone(received, sent);
      assert word == received;
      SameBits(received, sent);
    }
    AddressIsFirstBit(received);
    AddressIsFirstBit(sent);
  }

  lemma PartialNone(received: Codeword, sent: Codeword)
    ensures SyndromeOf(received) == Partial(received, 31)
  {
  }

  lemma RepairIsExact(received: Codeword, sent: Codeword, p: nat, q: nat)
    requires p <= 30 && q <= NONE && p != q && Noisy(received, sent)
    requires forall k :: 0 <= k < 31 ==> (At(received, k) != At(sent, k) <==> Hits(p, q, k))
    ensures Repaired(Repaired(received, q), p) == sent
  {
    hide At, Flip;
    RepairUndoes(received, sent, p, q);
    assert Hits(p, q, p) && (q <= 30 ==> Hits(p, q, q));
    assert At(received, p) != At(sent, p) && (q <= 30 ==> At(received, q) != At(sent, q));
    forall k | 21 <= k < 32
      ensures At(Repaired(Repaired(received, q), p), k) == At(sent, k)
    {
      FlipAt(received, q, k);
      FlipAt(Repaired(received, q), p, k);
    }
    SameBits(Repaired(Repaired(received, q), p), sent);
  }

  /** A message word with its first bit right, and either up to two errors behind it or too many to correct; any other
      word with the errors of a noisy one. */
  ghost predicate Rough(received: Codeword, sent: Codeword) {
    Noisy(received, sent) || (At(sent, 0) && At(received, 0) && (Distance(received, sent) <= 2 || Uncorrectable(received)))
  }

  ghost predicate RoughBatch(received: seq<Codeword>, sent: seq<Codeword>) {
    |received| == |sent| && forall i :: 0 <= i < |sent| ==> Rough(received[i], sent[i])
  }

  /** The corrector answers 3 exactly to the words that lie more than two errors from every codeword. */
  lemma UncorrectableIff(w: Codeword)
    ensures Uncorrectable(w) <==> Answer(w).0 == 3
  {
    hide Partial, Answer, IsRight, Differences;
    var (errors, word) := Answer(w);
    AnswerIsRight(w);
    if errors == 3 {
      forall c: Codeword | SyndromeOf(c) == CLEAN
        ensures Distance(w, c) > 2
      {
        HopelessIsFar(w, c, errors, word);
      }
    } else {
      var c := OthersAreNear(w, errors, word);
    }
  }

  /** A message word that can be corrected has its information bits restored. */
  lemma RoughMessage(received: Codeword, sent: Codeword)
    requires SyndromeOf(sent) == CLEAN && !IsAddress(sent) && Rough(received, sent)
    ensures !IsAddress(received)
    ensures var (errors, w) := Answer(received);
            if Uncorrectable(received) then errors == 3 else errors <= 2 && Top(w) == Top(sent)
  {
    hide Partial, Answer, At, IsAddress, Top, IsRight, Differences;
    var (errors, w) := Answer(received);
    AnswerIsRight(received);
    AddressIsFirstBit(received);
    AddressIsFirstBit(sent);
    UncorrectableIff(received);
    if !Uncorrectable(received) {
      CorrectsTwoErrors(sent, received, errors, w);
    }
  }

  lemma RoughIsNoisy(received: Codeword, sent: Codeword)
    requires IsAddress(sent) && Rough(received, sent)
    ensures Noisy(received, sent)
  {
    hide IsAddress, Noisy, At;
    AddressIsFirstBit(sent);
  }

  lemma AddressIsFirstBit(w: Codeword)
    ensures IsAddress(w) == !At(w, 0)
  {
    hide Mask;
    MaskValues();
  }

  // ----- the idle word

  /** The positions at which the idle word has a one. */
  predicate IdleBit(p: nat) {
    p == 1 || p == 2 || p == 3 || p == 4 || p == 6 || p == 8 || p == 12 || p == 15 || p == 16 || p == 17 || p == 23 || p == 24 || p == 27 || p == 29 || p == 30 || p == 31
  }

  lemma IdleAt(p: nat)
    requires p < 32
    ensures At(IDLE, p) == IdleBit(p)
  {
    hide Mask;
    MaskValues();
  }

  lemma IdleStep(n: nat)
    requires n < 31
    ensures Partial(IDLE, n + 1) == if IdleBit(n) then Plus(Partial(IDLE, n), Syndrome(ColTable(n))) else Partial(IDLE, n)
  {
    hide At, Plus, Col;
    IdleAt(n);
    ColValue(n);
  }

  /** What the first `n` positions of the idle word add up to. */
  function IdleSum(n: nat): bv10 {
    if n == 1 then 0x000 else if n == 2 then 0x1da else if n == 3 then 0x137 else if n == 4 then 0x2f5 else if n == 5 then 0x314
    else if n == 6 then 0x314 else if n == 7 then 0x2b6 else if n == 8 then 0x2b6 else if n == 9 then 0x16a else if n == 10 then 0x16a
    else if n == 11 then 0x16a else if n == 12 then 0x16a else if n == 13 then 0x339 else if n == 14 then 0x339 else if n == 15 then 0x339
    else if n == 16 then 0x244 else if n == 17 then 0x14e else if n == 18 then 0x0cb else if n == 19 then 0x0cb else if n == 20 then 0x0cb
    else if n == 21 then 0x0cb else if n == 22 then 0x0cb else if n == 23 then 0x0cb else if n == 24 then 0x04b else if n == 25 then 0x00b
    else if n == 26 then 0x00b else if n == 27 then 0x00b else if n == 28 then 0x003 else if n == 29 then 0x003 else if n == 30 then 0x001
    else 0x000
  }

  lemma IdleSumStep(n: nat)
    requires n < 31
    ensures IdleSum(n + 1) == if IdleBit(n) then IdleSum(n) ^ ColTable(n) else IdleSum(n)
  {
    if n < 8 {
    } else if n < 16 {
    } else if n < 24 {
    } else {
    }
  }

  lemma {:induction false} IdlePartial(n: nat)
    requires n <= 31
    ensures Partial(IDLE, n) == Syndrome(IdleSum(n))
  {
    hide IdleSum, IdleBit, ColTable, At, Col;
    if n == 0 {
      IdleStart();
    } else {
      IdlePartial(n - 1);
      IdleStep(n - 1);
      IdleSumStep(n - 1);
    }
  }

  lemma IdleStart()
    ensures Syndrome(IdleSum(0)) == CLEAN && Syndrome(IdleSum(31)) == CLEAN
  {
  }

  /** The idle word is a codeword, and looks like an address. */
  lemma IdleIsCodeword()
    ensures SyndromeOf(IDLE) == CLEAN && IsAddress(IDLE)
  {
    hide IdleSum;
    IdlePartial(31);
    IdleStart();
    hide Partial;
  }

  // ----- the address word

  lemma AddressFields(v: bv32, a: bv32, f: bv32)
    requires f < 4 && v & 0xFFFFF800 == ((a & 0x1FFFF8) << 10) | (f << 11)
    ensures (v >> 11) & 3 == f && (v >> 10) & 0x1FFFF8 == a & 0x1FFFF8 && v & 0x80000000 == 0
  {
  }

  lemma WholeAddress(v: bv32, a: bv32, n: bv32)
    requires a < 0x200000 && (v >> 10) & 0x1FFFF8 == a & 0x1FFFF8 && n == a & 7
    ensures ((v >> 10) & 0x1FFFF8) | n == a
  {
  }

  lemma FrameBack(a: bv32)
    ensures FrameNumber(2 * Frame(a)) == a & 7
  {
  }

  lemma FieldsBack(v: bv32, a: bv32, f: bv32, n: bv32)
    requires f < 4 && a < 0x200000 && n == a & 7 && v & 0xFFFFF800 == ((a & 0x1FFFF8) << 10) | (f << 11)
    ensures (v >> 11) & 3 == f && ((v >> 10) & 0x1FFFF8) | n == a && v & 0x80000000 == 0
  {
    AddressFields(v, a, f);
    WholeAddress(v, a, n);
  }

  lemma RawFields(v: bv32, a: bv32, index: nat)
    ensures FunctionOf(v) == (v >> 11) & 3 && AddressOf(v, index) == ((v >> 10) & 0x1FFFF8) | FrameNumber(index)
  {
  }

  /** What the address word says is what was put in. */
  lemma AddressBack(address: bv32, func: bv32, v: bv32)
    requires func < 4 && address < 0x200000 && v & 0xFFFFF800 == ((address & 0x1FFFF8) << 10) | (func << 11)
    ensures FunctionOf(v) == func && AddressOf(v, AddressSlot(address)) == address && v & 0x80000000 == 0
  {
    hide FunctionOf, AddressOf, Frame, FrameNumber;
    FrameBack(address);
    FieldsBack(v, address, func, FrameNumber(AddressSlot(address)));
    RawFields(v, address, AddressSlot(address));
  }

  lemma TopInBits(w: Codeword, address: bv32, func: bv32)
    requires Top(w) == AddressBits(address, func)
    ensures w.v & 0xFFFFF800 == ((address & 0x1FFFF8) << 10) | (func << 11)
  {
  }

  lemma AddressHasNoTail(address: bv32, func: bv32)
    ensures Top(AddressBits(address, func)) == AddressBits(address, func)
  {
  }

  lemma MessageIsNoAddress(codeword: bv32, w: Codeword)
    requires Top(w) == Top(Sealed(codeword))
    ensures !IsAddress(w)
  {
    assert Sealed(codeword).v & 0x80000000 != 0;
    TopKeepsFirst(w);
    TopKeepsFirst(Sealed(codeword));
  }

  lemma TopKeepsFirst(w: Codeword)
    ensures IsAddress(Top(w)) == IsAddress(w)
  {
  }

  // ----- a batch of the page

  lemma {:induction false} WordsFront(m: seq<byte>, t: Tx, n: nat)
    requires Ready(t) && n > 0
    ensures Words(m, t, n)[0] == WordFor(m, t) && Words(m, t, n)[1..] == Words(m, NextTx(m, t), n - 1)
    ensures TxAfter(m, t, n) == TxAfter(m, NextTx(m, t), n - 1)
    decreases n
  {
    hide WordFor, NextTx;
    if n == 1 {
      assert TxAfter(m, t, 0) == t;
      assert Words(m, t, 0) == [];
    } else {
      WordsFront(m, t, n - 1);
      WordsPush(m, t, n - 1);
      WordsPush(m, NextTx(m, t), n - 2);
    }
  }

  lemma {:induction false} OnlyIdles(m: seq<byte>, t: Tx, n: nat)
    requires Ready(t) && !HasMore(m, t)
    ensures TxAfter(m, t, n) == t && forall k :: 0 <= k < n ==> Words(m, t, n)[k] == IDLE
    decreases n
  {
    if n > 0 {
      OnlyIdles(m, t, n - 1);
    }
  }

  lemma BetweenJoins(m: seq<byte>, heard: seq<Codeword>, i: nat, j: nat, k: nat)
    requires i <= j <= k
    ensures Between(m, heard, i, j) + Between(m, heard, j, k) == Between(m, heard, i, k)
  {
    hide ShownAt;
  }

  lemma NothingBetween(m: seq<byte>, heard: seq<Codeword>, i: nat)
    ensures Between(m, heard, i, i) == []
  {
  }

  predicate IdlesFrom(batch: seq<Codeword>, i: nat) {
    |batch| == BATCH && forall k :: i <= k < BATCH ==> Noisy(batch[k], IDLE)
  }

  /** Same page: only what the characters and the sampling touch may differ. */
  predicate SamePage(s: Pager, u: Pager) { u.func == s.func && u.address == s.address }

  /** A message word taken by the decoder, as heard. */
  lemma TakesMessage(m: seq<byte>, t: Tx, s: Pager, l: Sample, heard: seq<Codeword>, j: nat, judge: Judge)
    requires Linked(m, t, s, heard, j) && s.idx < 7 && s.mode != Clear && HasMore(m, t)
    requires j < |heard| && Rough(heard[j], WordFor(m, t))
    ensures var (errors, w) := Answer(heard[j]);
            var o := Taken(s, l, heard[j], w, errors, judge);
            && o.Go? && Linked(m, NextTx(m, t), o.s, heard, j + 1) && Whole(t) <= Whole(NextTx(m, t))
            && o.s.output == s.output + Between(m, heard, Whole(t), Whole(NextTx(m, t)))
            && SamePage(s, o.s) && o.s.index == s.index + 1 && o.s.mode != Clear
  {
    hide Answer, Rough, IsAddress, Message, Encoded, Sealed, Filled, Between, Pending, Leftover, Top, Settled, Reverse, CharAt,
         Partial, Carried, Uncorrectable, Short;
    var sealed := Sealed(Filled(m, t).codeword);
    var (errors, w) := Answer(heard[j]);
    EncodedIsCodeword(sealed);
    MessageIsNoAddress(Filled(m, t).codeword, WordFor(m, t));
    RoughMessage(heard[j], WordFor(m, t));
    MessageStep(m, t, s, l, heard, j, w, errors);
  }

  /** An idle word closes an open page, and is passed over otherwise. */
  lemma TakesIdle(s: Pager, l: Sample, received: Codeword, judge: Judge)
    requires s.idx < 7 && Noisy(received, IDLE)
    ensures var (errors, w) := Answer(received);
            var o := Taken(s, l, received, w, errors, judge);
            && (s.mode != Clear ==> o.Stop? && o.s.mode == Clear && o.s.output == s.output && o.s.index == s.index && SamePage(s, o.s))
            && (s.mode == Clear ==> o == Go(s.(out := IdleOutput, index := s.index + 1), l))
  {
    hide Answer, Noisy, IsAddress, Message, Partial, NumericText;
    IdleIsCodeword();
    HeardExactly(received, IDLE);
  }

  /** The batch from word `i` on is the given words, with noise, and is what was heard from word `j` of the page on. */
  ghost predicate Carries(batch: seq<Codeword>, i: nat, words: seq<Codeword>, heard: seq<Codeword>, j: nat) {
    && |batch| == BATCH && i + |words| == BATCH && j + |words| <= |heard|
    && forall k {:trigger words[k]} :: 0 <= k < |words| ==> Rough(batch[i + k], words[k]) && heard[j + k] == batch[i + k]
  }

  lemma CarriesTail(batch: seq<Codeword>, i: nat, words: seq<Codeword>, rest: seq<Codeword>, heard: seq<Codeword>, j: nat)
    requires Carries(batch, i, words, heard, j) && words != [] && words[1..] == rest
    ensures j < |heard| && heard[j] == batch[i] && Rough(heard[j], words[0]) && Carries(batch, i + 1, rest, heard, j + 1)
  {
    hide Rough;
    forall k | 0 <= k < |rest|
      ensures Rough(batch[i + 1 + k], rest[k]) && heard[j + 1 + k] == batch[i + 1 + k]
    {
      assert rest[k] == words[k + 1];
      assert Rough(batch[i + (k + 1)], words[k + 1]);
    }
    assert Rough(batch[i + 0], words[0]);
  }

  lemma CarriesIdles(batch: seq<Codeword>, i: nat, words: seq<Codeword>, heard: seq<Codeword>, j: nat)
    requires Carries(batch, i, words, heard, j) && forall k :: 0 <= k < |words| ==> words[k] == IDLE
    ensures IdlesFrom(batch, i)
  {
    hide Noisy, Rough, Partial, IsAddress;
    IdleIsCodeword();
    forall k | i <= k < BATCH
      ensures Noisy(batch[k], IDLE)
    {
      assert words[k - i] == IDLE;
      RoughIsNoisy(batch[k], IDLE);
    }
  }

  /** What is to come out of a batch from inside a page; `j` counts the words of the page up to the end of the batch. */
  ghost predicate PageHeard(m: seq<byte>, t: Tx, end: Tx, s: Pager, batch: seq<Codeword>, heard: seq<Codeword>, j: nat,
                            more: bool, u: Pager)
    requires Ready(t) && (t.bitIdx < 31 ==> t.charIdx > 0)
  {
    && Ready(end) && (end.bitIdx < 31 ==> end.charIdx > 0) && Whole(t) <= Whole(end)
    && SamePage(s, u) && u.output == s.output + Between(m, heard, Whole(t), Whole(end))
    && (if more then u.mode == Clear && u.index < BATCH && !HasMore(m, end) && IdlesFrom(batch, u.index)
        else u.mode != Clear && Linked(m, end, u, heard, j))
  }

  lemma PageHeardFirst(m: seq<byte>, t: Tx, v: Tx, end: Tx, s: Pager, o: Pager, batch: seq<Codeword>, heard: seq<Codeword>,
                       j: nat, more: bool, u: Pager)
    requires Ready(t) && (t.bitIdx < 31 ==> t.charIdx > 0) && Ready(v) && (v.bitIdx < 31 ==> v.charIdx > 0)
    requires Whole(t) <= Whole(v) && o.output == s.output + Between(m, heard, Whole(t), Whole(v)) && SamePage(s, o)
    requires PageHeard(m, v, end, o, batch, heard, j, more, u)
    ensures PageHeard(m, t, end, s, batch, heard, j, more, u)
  {
    hide Between, IdlesFrom, Linked, HasMore;
    BetweenJoins(m, heard, Whole(t), Whole(v), Whole(end));
    Regroup3(s.output, Between(m, heard, Whole(t), Whole(v)), Between(m, heard, Whole(v), Whole(end)));
  }

  /** From inside a page to the end of the batch, or to the idle word that ends the page. */
  lemma {:induction false} PageRun(m: seq<byte>, t: Tx, s: Pager, l: Sample, batch: seq<Codeword>, heard: seq<Codeword>, j: nat,
                                   judge: Judge, n: nat)
    requires Linked(m, t, s, heard, j) && s.idx < 7 && s.mode != Clear && Carries(batch, s.index, Words(m, t, n), heard, j)
    ensures var (more, u) := Looped(s, l, batch, judge); PageHeard(m, t, TxAfter(m, t, n), s, batch, heard, j + n, more, u)
    decreases n
  {
    hide Taken, Answer, Rough, Between, WordFor, NextTx, Pending, Leftover, Reverse, CharAt, Carries, Words, TxAfter, Looped,
         IdlesFrom, Short, Uncorrectable, Noisy;
    CarriesSize(batch, s.index, Words(m, t, n), heard, j);
    NoWords(m, t);
    if n == 0 {
      NothingBetween(m, heard, Whole(t));
      assert s.output + [] == s.output;
      LoopedEnd(s, l, batch, judge);
    } else {
      LoopedStep(s, l, batch, judge);
      WordsFront(m, t, n);
      CarriesTail(batch, s.index, Words(m, t, n), Words(m, NextTx(m, t), n - 1), heard, j);
      if HasMore(m, t) {
        TakesMessage(m, t, s, l, heard, j, judge);
        var (errors, w) := Answer(batch[s.index]);
        var o := Taken(s, l, batch[s.index], w, errors, judge);
        PageRun(m, NextTx(m, t), o.s, o.l, batch, heard, j + 1, judge, n - 1);
        var (more, u) := Looped(s, l, batch, judge);
        PageHeardFirst(m, t, NextTx(m, t), TxAfter(m, t, n), s, o.s, batch, heard, j + n, more, u);
      } else {
        OnlyIdles(m, t, n);
        CarriesIdles(batch, s.index, Words(m, t, n), heard, j);
        OneIdle(batch, s.index);
        TakesIdle(s, l, batch[s.index], judge);
        NothingBetween(m, heard, Whole(t));
        assert s.output + [] == s.output;
      }
    }
  }

  lemma OneIdle(batch: seq<Codeword>, i: nat)
    requires IdlesFrom(batch, i) && i < BATCH
    ensures Noisy(batch[i], IDLE)
  {
    hide Noisy;
  }

  lemma CarriesSize(batch: seq<Codeword>, i: nat, words: seq<Codeword>, heard: seq<Codeword>, j: nat)
    requires Carries(batch, i, words, heard, j)
    ensures |batch| == BATCH && i + |words| == BATCH
  {
  }

  lemma NoWords(m: seq<byte>, t: Tx)
    requires Ready(t)
    ensures Words(m, t, 0) == [] && TxAfter(m, t, 0) == t
  {
  }

  /** Idle words to the end of a batch show nothing. */
  lemma {:induction false} IdleRun(s: Pager, l: Sample, batch: seq<Codeword>, judge: Judge)
    requires s.idx < 7 && s.mode == Clear && s.index <= BATCH && IdlesFrom(batch, s.index)
    ensures var (more, u) := Looped(s, l, batch, judge);
            !more && u.mode == Clear && u.output == s.output && SamePage(s, u)
    decreases BATCH - s.index
  {
    hide Taken, Answer, Noisy;
    if s.index == BATCH {
      LoopedEnd(s, l, batch, judge);
    } else {
      LoopedStep(s, l, batch, judge);
      TakesIdle(s, l, batch[s.index], judge);
      IdleRun(s.(out := IdleOutput, index := s.index + 1), l, batch, judge);
    }
  }

  function AddressWord(address: bv32, func: bv32): Codeword { Encoded(AddressBits(address, func)) }

  /** A page the receiver can tell from no page: its address word is not the idle word. */
  predicate Addressable(address: bv32, func: bv32) {
    func < 4 && address < 0x200000 && AddressWord(address, func) != IDLE
  }

  predicate IdleOdd(n: nat)
    requires n <= 32
  {
    n > 0 && IdleBit(n - 1) != IdleOdd(n - 1)
  }

  lemma {:induction false} IdleParity(n: nat)
    requires n <= 32
    ensures Parity(IDLE, n) == IdleOdd(n)
  {
    hide IdleBit, At;
    if n > 0 {
      IdleParity(n - 1);
      IdleAt(n - 1);
    }
  }

  lemma IdleIsEven()
    ensures !IdleOdd(32)
  {
    assert IdleOdd(4) && IdleOdd(8);
    assert !IdleOdd(10) && !IdleOdd(12);
    assert !IdleOdd(16) && !IdleOdd(20);
    assert IdleOdd(24) && IdleOdd(28);
  }

  lemma SameTop(address: bv32, func: bv32)
    requires func < 4 && address < 0x200000
    ensures Top(AddressBits(address, func)) == Top(IDLE) <==> func == 0 && address & 0x1FFFF8 == 0x1EA270
  {
  }

  /** Exactly the pages with function 0 for the eight addresses from 0x1EA270 on are taken for idle words. */
  lemma AddressableIff(address: bv32, func: bv32)
    requires func < 4 && address < 0x200000
    ensures Addressable(address, func) <==> !(func == 0 && address & 0x1FFFF8 == 0x1EA270)
  {
    hide Top, AddressBits, Encoded, Parity, IdleOdd, CLEAN, Partial;
    SameTop(address, func);
    EncodedIsCodeword(AddressBits(address, func));
    EncodedOfTop(AddressBits(address, func));
    EncodedOfTop(IDLE);
    IdleIsCodeword();
    IdleParity(32);
    IdleIsEven();
    OnlyEncoded(IDLE);
  }

  lemma TakesAddress(m: seq<byte>, address: bv32, func: bv32, s: Pager, l: Sample, heard: seq<Codeword>, received: Codeword, judge: Judge)
    requires Addressable(address, func) && s.mode == Clear && s.idx < 7 && s.index == AddressSlot(address)
    requires Noisy(received, AddressWord(address, func))
    ensures var (errors, w) := Answer(received);
            var o := Taken(s, l, received, w, errors, judge);
            && o.Go? && o.s.index == s.index + 1 && o.s.mode == HaveAddress && o.s.func == func && o.s.address == address
            && o.s.output == s.output && Linked(m, START, o.s, heard, 0)
            && !o.s.decided && o.s.curErr == 0 && o.l == Sample([], 0, [], l.bad)
  {
    hide Answer, Noisy, IsAddress, Encoded, Top, FunctionOf, AddressOf, Partial, AddressBits, Frame, CharAt, Uncorrectable;
    var w := AddressWord(address, func);
    EncodedIsCodeword(AddressBits(address, func));
    HeardExactly(received, w);
    AddressHasNoTail(address, func);
    TopInBits(w, address, func);
    AddressBack(address, func, w.v);
    FirstBitClear(w);
    NothingLeft(0);
  }

  lemma FirstBitClear(w: Codeword)
    ensures IsAddress(w) <==> w.v & 0x80000000 == 0
  {
  }

  /** Past the idle words in front of the address, and the address. */
  lemma {:induction false} AddressRun(m: seq<byte>, address: bv32, func: bv32, s: Pager, l: Sample, batch: seq<Codeword>,
                                      heard: seq<Codeword>, judge: Judge) returns (u: Pager, k: Sample)
    requires Addressable(address, func) && s.mode == Clear && s.idx < 7 && s.index <= AddressSlot(address) && |batch| == BATCH
    requires forall j :: s.index <= j < AddressSlot(address) ==> Noisy(batch[j], IDLE)
    requires Noisy(batch[AddressSlot(address)], AddressWord(address, func))
    ensures u.idx < 7 && Looped(s, l, batch, judge) == Looped(u, k, batch, judge)
    ensures u.index == AddressSlot(address) + 1 && u.mode == HaveAddress && u.func == func && u.address == address
    ensures u.output == s.output && Linked(m, START, u, heard, 0)
    ensures !u.decided && u.curErr == 0 && k == Sample([], 0, [], l.bad)
    decreases BATCH - s.index
  {
    hide Taken, Answer, Noisy, Linked, Addressable, Looped, Frame, AddressWord;
    LoopedStep(s, l, batch, judge);
    if s.index < AddressSlot(address) {
      TakesIdle(s, l, batch[s.index], judge);
      u, k := AddressRun(m, address, func, s.(out := IdleOutput, index := s.index + 1), l, batch, heard, judge);
    } else {
      TakesAddress(m, address, func, s, l, heard, batch[s.index], judge);
      var (errors, w) := Answer(batch[s.index]);
      var o := Taken(s, l, batch[s.index], w, errors, judge);
      LinkedIsShort(m, START, o.s, heard, 0);
      u, k := o.s, o.l;
    }
  }

  lemma LinkedIsShort(m: seq<byte>, t: Tx, s: Pager, heard: seq<Codeword>, j: nat)
    requires Linked(m, t, s, heard, j)
    ensures s.idx < 7
  {
    hide Short, Uncorrectable, Pending, Leftover, Reverse, CharAt;
  }

  // ----- the calls for a batch

  /** What the calls show, one after the other. */
  function Text(states: seq<Pager>): seq<byte> {
    if states == [] then [] else states[0].output + Text(states[1..])
  }

  predicate Closed(m: seq<byte>, end: Tx, u: Pager) { u.mode == Clear && !HasMore(m, end) }

  lemma TextOfTwo(a: Pager, b: Pager)
    ensures Text([a]) == a.output && Text([a] + [b]) == a.output + b.output
  {
    assert ([a] + [b])[1..] == [b];
    assert [a][1..] == [];
    assert [b][1..] == [];
  }

  /** What a batch shows from inside a page, calls taken together. */
  lemma CallsHear(m: seq<byte>, t: Tx, end: Tx, s: Pager, base: Pager, batch: seq<Codeword>, heard: seq<Codeword>, j: nat,
                  judge: Judge)
    requires Inv(s) && |batch| == BATCH && Ready(t) && (t.bitIdx < 31 ==> t.charIdx > 0)
    requires var (more, u) := Call(s, batch, judge); PageHeard(m, t, end, base, batch, heard, j, more, u) && base.output == []
    ensures var states := Calls(s, batch, judge); var last := states[|states| - 1];
            BatchHeard(m, t, end, Text(states), last, heard, j) && SamePage(base, last)
  {
    hide Looped, Inv, Between, Linked, HasMore, Opened, Calls, Call, IdlesFrom;
    CallsStep(s, batch, judge);
    var (more, u) := Call(s, batch, judge);
    TextOfTwo(u, u);
    assert [] + Between(m, heard, Whole(t), Whole(end)) == Between(m, heard, Whole(t), Whole(end));
    if more {
      CallsStep(u, batch, judge);
      SecondCall(u, batch, judge);
      var (again, v) := Call(u, batch, judge);
      TextOfTwo(u, v);
      assert [v] + [] == [v];
      assert u.output + [] == u.output;
    } else {
      assert [u] + [] == [u];
    }
  }

  /** The call behind the end of a page. */
  lemma SecondCall(u: Pager, batch: seq<Codeword>, judge: Judge)
    requires Inv(u) && |batch| == BATCH && u.mode == Clear && IdlesFrom(batch, u.index)
    ensures u.idx < 7
    ensures var (more, v) := Call(u, batch, judge); !more && v.mode == Clear && v.output == [] && SamePage(u, v)
  {
    hide Looped, IdlesFrom;
    IdleRun(Opened(u), NO_SAMPLE, batch, judge);
  }

  function Rewound(s: Pager): Pager { s.(index := 0, errors := 0) }

  lemma FirstBatchParts(m: seq<byte>, address: bv32, func: bv32, batch: seq<Codeword>, heard: seq<Codeword>)
    requires func < 4 && RoughBatch(batch, FirstBatch(m, address, func))
    requires |batch| == BATCH ==> batch[AddressSlot(address) + 1..] <= heard
    ensures |batch| == BATCH && forall j :: 0 <= j < AddressSlot(address) ==> Noisy(batch[j], IDLE)
    ensures Noisy(batch[AddressSlot(address)], AddressWord(address, func))
    ensures Carries(batch, AddressSlot(address) + 1, Words(m, START, Room(address)), heard, 0)
  {
    hide Noisy, Rough, Encoded, Frame, Words, AddressBits, IsAddress, Partial;
    var slot, words := AddressSlot(address), Words(m, START, Room(address));
    var sent := FirstBatch(m, address, func);
    IdleIsCodeword();
    forall j | 0 <= j < slot
      ensures Noisy(batch[j], IDLE)
    {
      assert sent[j] == IDLE;
      RoughIsNoisy(batch[j], IDLE);
    }
    assert sent[slot] == AddressWord(address, func);
    AddressIsAddress(address, func);
    RoughIsNoisy(batch[slot], AddressWord(address, func));
    forall k | 0 <= k < |words|
      ensures Rough(batch[slot + 1 + k], words[k]) && heard[0 + k] == batch[slot + 1 + k]
    {
      assert sent[slot + 1 + k] == words[k];
      assert batch[slot + 1..][k] == batch[slot + 1 + k];
    }
  }

  lemma AddressIsAddress(address: bv32, func: bv32)
    requires func < 4
    ensures IsAddress(AddressWord(address, func))
  {
    hide Encoded, IsAddress, Partial, Top;
    EncodedIsCodeword(AddressBits(address, func));
    TopKeepsFirst(AddressWord(address, func));
    TopKeepsFirst(AddressBits(address, func));
    AddressBitsClear(address, func);
  }

  lemma AddressBitsClear(address: bv32, func: bv32)
    requires func < 4
    ensures IsAddress(AddressBits(address, func))
  {
  }

  /** Behind a batch: the page is closed, or open with transmitter and receiver in step. */
  ghost predicate BatchHeard(m: seq<byte>, t: Tx, end: Tx, text: seq<byte>, last: Pager, heard: seq<Codeword>, j: nat)
    requires Ready(t) && (t.bitIdx < 31 ==> t.charIdx > 0)
  {
    && Ready(end) && (end.bitIdx < 31 ==> end.charIdx > 0) && Whole(t) <= Whole(end)
    && text == Between(m, heard, Whole(t), Whole(end)) && Inv(last)
    && (Closed(m, end, last) || (last.mode != Clear && Linked(m, end, last, heard, j)))
  }

  lemma AddressableFits(address: bv32, func: bv32)
    requires Addressable(address, func)
    ensures func < 4
  {
  }

  lemma FirstBatchHears(m: seq<byte>, address: bv32, func: bv32, s: Pager, batch: seq<Codeword>, heard: seq<Codeword>,
                        judge: Judge)
    requires Inv(s) && s.mode == Clear && Addressable(address, func) && RoughBatch(batch, FirstBatch(m, address, func))
    requires |batch| == BATCH ==> batch[AddressSlot(address) + 1..] <= heard
    ensures |batch| == BATCH && Inv(Rewound(s))
    ensures var states := Calls(Rewound(s), batch, judge); var last := states[|states| - 1];
            && BatchHeard(m, START, TxAfter(m, START, Room(address)), Text(states), last, heard, Room(address))
            && last.address == address && last.func == func
  {
    hide Noisy, RoughBatch, Words, TxAfter, Calls, Looped, Addressable, Linked, Between, Carries, Closed, Frame, AddressWord;
    RewoundKeeps(s);
    AddressableFits(address, func);
    FirstBatchParts(m, address, func, batch, heard);
    var s0 := Opened(Rewound(s));
    OpenedKeeps(Rewound(s));
    var u, k := AddressRun(m, address, func, s0, NO_SAMPLE, batch, heard, judge);
    PageRun(m, START, u, k, batch, heard, 0, judge, Room(address));
    CallsHear(m, START, TxAfter(m, START, Room(address)), Rewound(s), u, batch, heard, Room(address), judge);
  }

  lemma LaterBatchHears(m: seq<byte>, t: Tx, s: Pager, batch: seq<Codeword>, heard: seq<Codeword>, j: nat, judge: Judge)
    requires Inv(s) && s.mode != Clear && Linked(m, t, s, heard, j) && RoughBatch(batch, Words(m, t, BATCH))
    requires j <= |heard| && batch <= heard[j..]
    ensures |batch| == BATCH && Inv(Rewound(s))
    ensures var states := Calls(Rewound(s), batch, judge); var last := states[|states| - 1];
            BatchHeard(m, t, TxAfter(m, t, BATCH), Text(states), last, heard, j + BATCH) && SamePage(s, last)
  {
    hide Rough, Words, TxAfter, Calls, Looped, Between, Closed, Pending, Leftover, Reverse, CharAt, Short, Uncorrectable;
    RewoundKeeps(s);
    var s0 := Opened(Rewound(s));
    OpenedKeeps(Rewound(s));
    var words := Words(m, t, BATCH);
    forall k {:trigger words[k]} | 0 <= k < |words|
      ensures Rough(batch[0 + k], words[k]) && heard[j + k] == batch[0 + k]
    {
      assert Rough(batch[k], words[k]);
      assert heard[j..][k] == batch[k];
    }
    PageRun(m, t, s0, NO_SAMPLE, batch, heard, j, judge, BATCH);
    CallsHear(m, t, TxAfter(m, t, BATCH), Rewound(s), s0, batch, heard, j + BATCH, judge);
  }

  // ----- the whole page

  lemma StillValid(s: Pager)
    requires Inv(s)
    ensures Inv(Rewound(s))
  {
  }

  /** What a receiver shows for a list of batches. */
  ghost function Hear(s: Pager, batches: seq<seq<Codeword>>, judge: Judge): (Pager, seq<byte>)
    requires Inv(s) && forall i :: 0 <= i < |batches| ==> |batches[i]| == BATCH
    decreases |batches|
  {
    hide Calls, Inv, Rewound;
    if batches == [] then (s, [])
    else
      StillValid(s);
      var states := Calls(Rewound(s), batches[0], judge);
      var (u, rest) := Hear(states[|states| - 1], batches[1..], judge);
      (u, Text(states) + rest)
  }

  /** The encoder's state behind its last batch. */
  function EndFrom(m: seq<byte>, t: Tx): (r: Tx)
    requires Ready(t)
    ensures Ready(r) && r.charIdx >= |m|
    decreases |m| - t.charIdx
  {
    if t.charIdx < |m| then EndFrom(m, TxAfter(m, t, BATCH)) else t
  }

  function End(m: seq<byte>, address: bv32): Tx { EndFrom(m, TxAfter(m, START, Room(address))) }

  ghost predicate RoughPage(received: seq<seq<Codeword>>, sent: seq<seq<Codeword>>) {
    |received| == |sent| && forall i :: 0 <= i < |sent| ==> RoughBatch(received[i], sent[i])
  }

  lemma RoughPageSize(received: seq<seq<Codeword>>, sent: seq<seq<Codeword>>)
    requires RoughPage(received, sent)
    ensures |received| == |sent|
    ensures (forall i :: 0 <= i < |sent| ==> |sent[i]| == BATCH) ==> forall i :: 0 <= i < |received| ==> |received[i]| == BATCH
  {
    hide Rough;
    if forall i :: 0 <= i < |sent| ==> |sent[i]| == BATCH {
      forall i | 0 <= i < |received|
        ensures |received[i]| == BATCH
      {
        assert RoughBatch(received[i], sent[i]);
      }
    }
  }

  lemma RoughPageRest(received: seq<seq<Codeword>>, sent: seq<seq<Codeword>>)
    requires RoughPage(received, sent) && sent != []
    ensures RoughBatch(received[0], sent[0]) && RoughPage(received[1..], sent[1..])
  {
    hide RoughBatch;
    forall i | 0 <= i < |sent| - 1
      ensures RoughBatch(received[1..][i], sent[1..][i])
    {
      assert RoughBatch(received[i + 1], sent[i + 1]);
    }
  }

  function Flat(batches: seq<seq<Codeword>>): seq<Codeword> {
    if batches == [] then [] else batches[0] + Flat(batches[1..])
  }

  /** The words heard behind the address word. */
  function Behind(received: seq<seq<Codeword>>, address: bv32): seq<Codeword>
    requires received != [] && |received[0]| == BATCH
  {
    hide Frame;
    received[0][AddressSlot(address) + 1..] + Flat(received[1..])
  }

  /** The batches behind the first one. */
  lemma {:induction false} MoreHears(m: seq<byte>, t: Tx, s: Pager, received: seq<seq<Codeword>>, heard: seq<Codeword>, j: nat,
                                     judge: Judge)
    requires Inv(s) && Ready(t) && (t.bitIdx < 31 ==> t.charIdx > 0)
    requires Closed(m, t, s) || (s.mode != Clear && Linked(m, t, s, heard, j))
    requires RoughPage(received, MoreBatches(m, t)) && j <= |heard| && heard[j..] == Flat(received)
    ensures forall i :: 0 <= i < |received| ==> |received[i]| == BATCH
    ensures var end := EndFrom(m, t);
            (end.bitIdx < 31 ==> end.charIdx > 0) && Whole(t) <= Whole(end) &&
            var (u, text) := Hear(s, received, judge);
            SamePage(s, u) && text == Between(m, heard, Whole(t), Whole(end))
    decreases |m| - t.charIdx
  {
    hide RoughBatch, RoughPage, Words, TxAfter, Calls, Linked, Between, Inv;
    RoughPageSize(received, MoreBatches(m, t));
    if t.charIdx >= |m| {
      NothingBetween(m, heard, Whole(t));
    } else {
      var more := MoreBatches(m, TxAfter(m, t, BATCH));
      assert MoreBatches(m, t)[1..] == more;
      RoughPageRest(received, MoreBatches(m, t));
      LaterBatchHears(m, t, s, received[0], heard, j, judge);
      var states := Calls(Rewound(s), received[0], judge);
      var last := states[|states| - 1];
      assert heard[j + BATCH..] == Flat(received)[BATCH..] == Flat(received[1..]);
      MoreHears(m, TxAfter(m, t, BATCH), last, received[1..], heard, j + BATCH, judge);
      BetweenJoins(m, heard, Whole(t), Whole(TxAfter(m, t, BATCH)), Whole(EndFrom(m, t)));
    }
  }

  /** The decoder shows the characters that were sent in full, the spoilt ones as such, and holds the address and the
      function. */
  lemma PageIsHeard(m: seq<byte>, address: bv32, func: bv32, s: Pager, received: seq<seq<Codeword>>, judge: Judge)
    requires Inv(s) && s.mode == Clear && Addressable(address, func) && RoughPage(received, Batches(m, address, func))
    ensures received != [] && forall i :: 0 <= i < |received| ==> |received[i]| == BATCH
    ensures var end := End(m, address);
            (end.bitIdx < 31 ==> end.charIdx > 0) &&
            var (u, text) := Hear(s, received, judge);
            u.address == address && u.func == func && text == Between(m, Behind(received, address), 0, Whole(end))
  {
    hide RoughBatch, RoughPage, Words, TxAfter, Calls, Linked, Between, Inv, FirstBatch, MoreBatches, Frame, Addressable, EndFrom;
    var batches := Batches(m, address, func);
    var t := TxAfter(m, START, Room(address));
    RoughPageSize(received, batches);
    RoughPageRest(received, batches);
    assert batches[1..] == MoreBatches(m, t);
    var heard := Behind(received, address);
    FirstBatchHears(m, address, func, s, received[0], heard, judge);
    var states := Calls(Rewound(s), received[0], judge);
    var last := states[|states| - 1];
    MoreHears(m, t, last, received[1..], heard, Room(address), judge);
    BetweenJoins(m, heard, 0, Whole(t), Whole(End(m, address)));
  }

  // ----- exactly when the whole message comes back

  /** How an octet of the message is shown: its low seven bits, or a dot for a control character. */
  function Seen(c: byte): byte { if 32 <= c & 0x7F <= 126 then c & 0x7F else 0x2E }

  /** The encoder takes a last character whose seven bits are zero for none at all. */
  predicate EndsInNul(m: seq<byte>) { m != [] && m[|m| - 1] & 0x7F == 0 }

  /** The last of `size` characters begins in front of the end of `words` words and ends behind it: twenty bits a word and
      seven a character. */
  predicate SplitAt(size: nat, words: nat) { 7 * (size - 1) < 20 * words < 7 * size }

  /** The last character is split by the end of a batch, with `room` words in the first one and sixteen in every other;
      or it is a NUL, and split by the end of any word. */
  ghost predicate Straddles(m: seq<byte>, room: nat) {
    (exists n: nat :: SplitAt(|m|, room + BATCH * n)) || (EndsInNul(m) && exists n: nat :: SplitAt(|m|, n))
  }

  /** All words so far were full of characters. */
  predicate Exact(t: Tx, words: nat) { 7 * t.charIdx - (31 - t.bitIdx) == 20 * words }

  /** Either that, or the message is over with bits to spare, or it has stopped at a NUL. */
  ghost predicate InStep(m: seq<byte>, t: Tx, words: nat) {
    && Ready(t)
    && t.last == (if t.charIdx == 0 then 0 else Reverse(CharAt(m, t.charIdx - 1)))
    && (t.charIdx > |m| && EndsInNul(m) ==> forall n: nat :: !SplitAt(|m|, n))
    && (Exact(t, words) || (t.charIdx > |m| && 20 * words > 7 * |m|) || Stopped(m, t, words))
  }

  ghost predicate Stopped(m: seq<byte>, t: Tx, words: nat) {
    t.charIdx == |m| && EndsInNul(m) && exists n: nat :: n <= words && Exact(t, n)
  }

  lemma NulOrNot(m: seq<byte>, i: nat)
    ensures i >= |m| ==> Reverse(CharAt(m, i)) == 0
    ensures i + 1 == |m| ==> (Reverse(CharAt(m, i)) == 0 <==> EndsInNul(m))
  {
    hide Reverse;
    ReverseTwice(CharAt(m, i));
    ReverseTwice(0);
    ReversedZero();
  }

  lemma ReversedZero()
    ensures Reverse(0) == 0
  {
  }

  /** A word takes twenty bits. */
  lemma WordTakes(m: seq<byte>, t: Tx)
    requires Ready(t) && HasMore(m, t)
    ensures var u := NextTx(m, t);
            && 7 * u.charIdx - (31 - u.bitIdx) == 7 * t.charIdx - (31 - t.bitIdx) + 20
            && u.charIdx > 0 && u.last == Reverse(CharAt(m, u.charIdx - 1))
  {
    hide Reverse, CharAt, Filled, Placed, Carried, Leftover;
    var y2, y3 := Reverse(CharAt(m, t.charIdx + 1)), Reverse(CharAt(m, t.charIdx + 2));
    CarriedIs(m, t, y2, y3);
  }

  /** As long as words go out they are full, and a NUL at the end has not been taken. */
  lemma StillExact(m: seq<byte>, t: Tx, words: nat)
    requires InStep(m, t, words) && m != [] && HasMore(m, t)
    ensures Ready(t) && Exact(t, words) && (EndsInNul(m) ==> t.charIdx < |m|)
  {
    hide Reverse, CharAt, EndsInNul, SplitAt, Exact;
    if t.charIdx > 0 {
      NulOrNot(m, t.charIdx - 1);
    }
  }

  lemma NoSplitInside(size: nat, t: Tx, u: Tx, words: nat, n: nat)
    requires Ready(t) && Ready(u) && Exact(t, words) && Exact(u, words + 1) && t.charIdx < size < u.charIdx
    ensures !SplitAt(size, n)
  {
    if SplitAt(size, n) {
      Between20(words, n, 7 * (size - 1));
      Between20(n, words + 1, 7 * size);
    }
  }

  lemma Between20(a: int, b: int, x: int)
    requires 20 * a <= x < 20 * b || 20 * a < x <= 20 * b
    ensures a < b
  {
  }

  lemma ExactInStep(m: seq<byte>, t: Tx, words: nat)
    requires Ready(t) && Exact(t, words) && t.charIdx > 0 && t.last == Reverse(CharAt(m, t.charIdx - 1))
    requires t.charIdx > |m| && EndsInNul(m) ==> forall n: nat :: !SplitAt(|m|, n)
    ensures InStep(m, t, words)
  {
    hide Reverse, CharAt, EndsInNul, SplitAt, Exact, Stopped;
  }

  /** Where a word goes out. */
  lemma MoreInStep(m: seq<byte>, t: Tx, words: nat)
    requires InStep(m, t, words) && m != [] && HasMore(m, t)
    ensures InStep(m, NextTx(m, t), words + 1)
  {
    hide Reverse, CharAt, NextTx, EndsInNul, InStep, SplitAt, HasMore;
    StillExact(m, t, words);
    WordTakes(m, t);
    var u := NextTx(m, t);
    assert Exact(u, words + 1);
    if u.charIdx > |m| && EndsInNul(m) {
      forall n: nat
        ensures !SplitAt(|m|, n)
      {
        NoSplitInside(|m|, t, u, words, n);
      }
    }
    ExactInStep(m, u, words + 1);
  }

  /** Where none does. */
  lemma NoMoreInStep(m: seq<byte>, t: Tx, words: nat)
    requires InStep(m, t, words) && m != [] && !HasMore(m, t)
    ensures NextTx(m, t) == t && InStep(m, t, words + 1)
  {
    hide Reverse, CharAt, EndsInNul;
    NulOrNot(m, t.charIdx - 1);
    if t.charIdx == |m| {
      assert Stopped(m, t, words + 1);
    }
  }

  lemma {:induction false} InStepAfter(m: seq<byte>, t: Tx, words: nat, n: nat)
    requires InStep(m, t, words) && m != []
    ensures InStep(m, TxAfter(m, t, n), words + n)
    decreases n
  {
    hide InStep, NextTx;
    InStepIsReady(m, t, words);
    if n > 0 {
      InStepAfter(m, t, words, n - 1);
      var u := TxAfter(m, t, n - 1);
      InStepIsReady(m, u, words + n - 1);
      if HasMore(m, u) {
        MoreInStep(m, u, words + (n - 1));
      } else {
        NoMoreInStep(m, u, words + (n - 1));
      }
    }
  }

  lemma InStepIsReady(m: seq<byte>, t: Tx, words: nat)
    requires InStep(m, t, words)
    ensures Ready(t)
  {
  }

  /** A message is split at one place at most. */
  lemma SplitOnce(size: nat, a: nat, b: nat)
    requires SplitAt(size, a) && SplitAt(size, b)
    ensures a == b
  {
  }

  /** Behind the message a character is cut off exactly when it is split, here or in front of a NUL's rest. */
  lemma CutOffHere(m: seq<byte>, t: Tx, words: nat)
    requires InStep(m, t, words) && m != [] && t.charIdx >= |m| && (t.bitIdx < 31 ==> t.charIdx > 0)
    ensures Whole(t) < |m| <==> Straddles(m, words)
    ensures Whole(t) >= |m| - 1
  {
    hide Reverse, CharAt, EndsInNul;
    if Whole(t) < |m| {
      assert t.charIdx == |m| && t.bitIdx < 31;
      if Exact(t, words) {
        assert SplitAt(|m|, words + BATCH * 0);
      } else {
        var n: nat :| n <= words && Exact(t, n);
        assert SplitAt(|m|, n);
      }
    } else if Straddles(m, words) {
      NoSplitBehind(m, t, words);
    }
  }

  lemma NoSplitBehind(m: seq<byte>, t: Tx, words: nat)
    requires InStep(m, t, words) && m != [] && t.charIdx >= |m| && (t.bitIdx < 31 ==> t.charIdx > 0) && Whole(t) >= |m|
    ensures !Straddles(m, words)
  {
    hide Reverse, CharAt, EndsInNul, SplitAt;
    if t.charIdx == |m| {
      var k: nat := words;
      if !Exact(t, words) {
        k :| k <= words && Exact(t, k);
      }
      forall n: nat
        ensures !SplitAt(|m|, n)
      {
        NoSplitOfWhole(|m|, k, n);
      }
    } else {
      PastTheEnd(m, t, words);
      forall n: nat
        ensures !SplitAt(|m|, words + BATCH * n)
      {
        NoSplitBehindSize(|m|, words, words + BATCH * n);
      }
    }
  }

  lemma NoSplitOfWhole(size: nat, k: nat, n: nat)
    requires 7 * size == 20 * k
    ensures !SplitAt(size, n)
  {
    if SplitAt(size, n) {
      Between20(k - 1, n, 7 * (size - 1));
      Between20(n, k, 7 * size);
    }
  }

  lemma PastTheEnd(m: seq<byte>, t: Tx, words: nat)
    requires InStep(m, t, words) && t.charIdx > |m|
    ensures 20 * words > 7 * |m|
  {
    hide Reverse, CharAt, EndsInNul, SplitAt;
  }

  lemma NoSplitBehindSize(size: nat, words: nat, n: nat)
    requires 20 * words > 7 * size && n >= words
    ensures !SplitAt(size, n)
  {
  }

  /** A character in front of a batch's end is split further on. */
  lemma SplitFurtherOn(m: seq<byte>, t: Tx, words: nat)
    requires InStep(m, t, words) && m != [] && t.charIdx < |m|
    ensures Straddles(m, words) <==> Straddles(m, words + BATCH)
  {
    hide Reverse, CharAt, EndsInNul;
    assert Exact(t, words);
    if n: nat :| SplitAt(|m|, words + BATCH * n) {
      assert n > 0;
      assert SplitAt(|m|, words + BATCH + BATCH * (n - 1));
    }
    if n: nat :| SplitAt(|m|, words + BATCH + BATCH * n) {
      assert SplitAt(|m|, words + BATCH * (n + 1));
    }
  }

  /** From the end of a batch on, characters are cut off at the end of some batch exactly when the last one
      is split there. */
  lemma {:induction false} CutOffAt(m: seq<byte>, t: Tx, words: nat)
    requires InStep(m, t, words) && m != []
    requires EndFrom(m, t).bitIdx < 31 ==> EndFrom(m, t).charIdx > 0
    ensures Whole(EndFrom(m, t)) < |m| <==> Straddles(m, words)
    ensures Whole(EndFrom(m, t)) >= |m| - 1
    decreases |m| - t.charIdx
  {
    hide TxAfter, Reverse, CharAt, InStep, Straddles;
    InStepIsReady(m, t, words);
    if t.charIdx >= |m| {
      CutOffHere(m, t, words);
    } else {
      InStepAfter(m, t, words, BATCH);
      CutOffAt(m, TxAfter(m, t, BATCH), words + BATCH);
      SplitFurtherOn(m, t, words);
    }
  }

  /** A character is shown by its seven bits, and what is sent behind the message as a dot. */
  lemma ShownMessage(m: seq<byte>, heard: seq<Codeword>, i: nat)
    ensures ShownAt(m, heard, i) == if Spoilt(heard, i) then 0x3F else if i < |m| then Seen(m[i]) else 0x2E
  {
    hide Spoilt;
  }

  /** What a page with any mix of good words and words beyond correction shows: at every place a question mark exactly
      when the character has a bit in such a word, and the sent character otherwise, with dots behind the message; and
      all of the message, but for a last character that is split. */
  ghost predicate Shows(m: seq<byte>, heard: seq<Codeword>, room: nat, text: seq<byte>) {
    && (if Straddles(m, room) then |text| == |m| - 1 else |text| >= |m|)
    && forall i :: 0 <= i < |text| ==> text[i] == if Spoilt(heard, i) then 0x3F else if i < |m| then Seen(m[i]) else 0x2E
  }

  /** The page round trip, for any message. Whatever the heuristic says, the decoder recovers the address and the function, and
      shows the message in the sense of `Shows`: message words may have up to two errors behind their first bit, or be beyond
      correction. A last character that is split by the end of a batch is lost, for the encoder stops once it has taken the
      last character, not once it has sent it; so is a split NUL at the end, which the encoder takes for nothing to send;
      and nothing else is. */
  lemma PageRoundTrip(m: seq<byte>, address: bv32, func: bv32, s: Pager, received: seq<seq<Codeword>>, judge: Judge)
    requires Inv(s) && s.mode == Clear && Addressable(address, func)
    requires RoughPage(received, Batches(m, address, func))
    ensures received != [] && forall i :: 0 <= i < |received| ==> |received[i]| == BATCH
    ensures var (u, text) := Hear(s, received, judge);
            u.address == address && u.func == func && Shows(m, Behind(received, address), Room(address), text)
  {
    hide RoughPage, Hear, Inv, Addressable, Frame, Batches, ShownAt, EndFrom, TxAfter, Spoilt, Behind, InStep, Seen;
    PageIsHeard(m, address, func, s, received, judge);
    var end := End(m, address);
    var heard := Behind(received, address);
    var (u, text) := Hear(s, received, judge);
    forall i | 0 <= i < |text|
      ensures text[i] == if Spoilt(heard, i) then 0x3F else if i < |m| then Seen(m[i]) else 0x2E
    {
      assert text[i] == ShownAt(m, heard, 0 + i);
      ShownMessage(m, heard, i);
    }
    if m != [] {
      InStepStart(m);
      InStepAfter(m, START, 0, Room(address));
      CutOffAt(m, TxAfter(m, START, Room(address)), Room(address));
    } else {
      assert !Straddles(m, Room(address));
    }
  }

  lemma InStepStart(m: seq<byte>)
    ensures InStep(m, START, 0)
  {
  }

  // ----- pages without lost words

  ghost predicate NoneLost(received: seq<seq<Codeword>>) {
    forall i, k :: 0 <= i < |received| && 0 <= k < |received[i]| ==> !Uncorrectable(received[i][k])
  }

  lemma {:induction false} NoneLostFlat(received: seq<seq<Codeword>>, k: nat)
    requires NoneLost(received) && k < |Flat(received)|
    ensures !Uncorrectable(Flat(received)[k])
  {
    hide Uncorrectable;
    if k < |received[0]| {
      assert !Uncorrectable(received[0][k]);
    } else {
      assert forall i, n :: 0 <= i < |received[1..]| && 0 <= n < |received[1..][i]| ==> received[1..][i][n] == received[i + 1][n];
      NoneLostFlat(received[1..], k - |received[0]|);
    }
  }

  function SeenText(m: seq<byte>): (r: seq<byte>)
    ensures |r| == |m|
  {
    seq(|m|, i requires 0 <= i < |m| => Seen(m[i]))
  }

  /** Printable text is shown as it is. */
  lemma PrintableIsSeen(m: seq<byte>)
    requires forall i :: 0 <= i < |m| ==> 32 <= m[i] <= 126
    ensures SeenText(m) == m
  {
    forall i | 0 <= i < |m|
      ensures Seen(m[i]) == m[i]
    {
      LowIsSame(m[i]);
    }
  }

  lemma LowIsSame(c: byte)
    requires 32 <= c <= 126
    ensures c & 0x7F == c
  {
  }

  /** Where every word can be corrected, the message comes back as it is seen, followed only by dots, but for a split last
      character. */
  lemma PageComesBack(m: seq<byte>, address: bv32, received: seq<seq<Codeword>>, text: seq<byte>)
    requires received != [] && |received[0]| == BATCH && NoneLost(received)
    requires Shows(m, Behind(received, address), Room(address), text)
    ensures Straddles(m, Room(address)) ==> m != [] && text == SeenText(m)[..|m| - 1]
    ensures !Straddles(m, Room(address)) ==> SeenText(m) <= text && forall i :: |m| <= i < |text| ==> text[i] == 0x2E
  {
    hide Uncorrectable, Frame, NoneLost, Straddles, Seen;
    var slot := AddressSlot(address);
    var heard := Behind(received, address);
    forall k | 0 <= k < |heard|
      ensures !Uncorrectable(heard[k])
    {
      assert Flat(received)[slot + 1..] == heard;
      NoneLostFlat(received, slot + 1 + k);
    }
    assert forall i :: 0 <= i < |text| ==> !Spoilt(heard, i);
  }
}
