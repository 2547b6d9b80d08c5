/** Callsign and squawk of a Mode S frame (encode_frame_id and encode_frame_squawk in src/apps/ui_adsb_tx.cpp,
    decode_frame_id and decode_squawk in src/apps/ui_adsb_rx.cpp). */
module AdsbIdent {
  import opened Bits

  // ----- the six-bit characters

  const LUT: string := "#ABCDEFGHIJKLMNO" + "PQRSTUVWXYZ#####" + " ###############" + "0123456789######"

  /** The first place of a character in the table, or 32 where it has none. */
  function CodeFrom(ch: char, k: nat): (r: nat)
    requires k <= 64
    ensures r < 64
    ensures LUT[r] == (if exists j :: k <= j < 64 && LUT[j] == ch then ch else ' ')
    decreases 64 - k
  {
    if k == 64 then SpaceIsThere(); 32
    else if LUT[k] == ch then k
    else CodeFrom(ch, k + 1)
  }

  lemma SpaceIsThere()
    ensures |LUT| == 64 && LUT[32] == ' '
  {
  }

  /** One six-bit character, and the 48 bits eight of them make. */
  datatype Six = Six(v: bv6)

  datatype Coded = Coded(v: bv64)

  function SixOf(k: nat): Six
    requires k < 64
  {
    Six(k as bv6)
  }

  function Index(s: Six): (k: nat)
    ensures k < 64
  {
    s.v as nat
  }

  lemma IndexBack(k: nat)
    requires k < 64
    ensures Index(SixOf(k)) == k
  {
  }

  function CodeOf(ch: char): Six { SixOf(CodeFrom(ch, 0)) }

  function CharOf(s: Six): char { LUT[Index(s)] }

  function Append(c: Coded, s: Six): Coded { Coded((c.v << 6) | s.v as bv64) }

  function Up(c: Coded): Coded { Coded(c.v << 6) }

  function Top(c: Coded): Six { Six(((c.v >> 42) & 0x3F) as bv6) }

  /** A callsign, cut or filled with spaces to eight. */
  function Symbol(callsign: string, c: nat): char { if c < |callsign| then callsign[c] else ' ' }

  function Appended(callsign: string, n: nat): Coded {
    if n == 0 then Coded(0) else Append(Appended(callsign, n - 1), CodeOf(Symbol(callsign, n - 1)))
  }

  function Ups(c: Coded, n: nat): Coded { if n == 0 then c else Up(Ups(c, n - 1)) }

  function Octets(c: Coded): (r: seq<byte>)
    ensures |r| == 6
  {
    [((c.v >> 40) & 0xFF) as byte, ((c.v >> 32) & 0xFF) as byte, ((c.v >> 24) & 0xFF) as byte, ((c.v >> 16) & 0xFF) as byte,
     ((c.v >> 8) & 0xFF) as byte, (c.v & 0xFF) as byte]
  }

  function Join(c: Coded, b: byte): Coded { Coded((c.v << 8) | b as bv64) }

  function Joined(octets: seq<byte>, n: nat): Coded
    requires n <= |octets|
  {
    if n == 0 then Coded(0) else Join(Joined(octets, n - 1), octets[n - 1])
  }

  function EightCodes(a: Six, b: Six, c: Six, d: Six, e: Six, f: Six, g: Six, h: Six): Coded {
    Append(Append(Append(Append(Append(Append(Append(Append(Coded(0), a), b), c), d), e), f), g), h)
  }

  function Reads(w: Coded): seq<Six> {
    [Top(w), Top(Up(w)), Top(Up(Up(w))), Top(Up(Up(Up(w)))), Top(Up(Up(Up(Up(w))))), Top(Up(Up(Up(Up(Up(w)))))),
     Top(Up(Up(Up(Up(Up(Up(w))))))), Top(Up(Up(Up(Up(Up(Up(Up(w))))))))]
  }

  /** Eight characters through six octets: nothing overlaps and nothing is lost. */
  lemma EightThroughSix(a: Six, b: Six, c: Six, d: Six, e: Six, f: Six, g: Six, h: Six)
    ensures var w := EightCodes(a, b, c, d, e, f, g, h); var o := Octets(w);
            Join(Join(Join(Join(Join(Join(Coded(0), o[0]), o[1]), o[2]), o[3]), o[4]), o[5]) == w
    ensures Reads(EightCodes(a, b, c, d, e, f, g, h)) == [a, b, c, d, e, f, g, h]
  {
  }

  predicate Carried(ch: char) { 'A' <= ch <= 'Z' || '0' <= ch <= '9' || ch == '#' }

  /** What the receiver shows for a callsign: eight places, a space for every character missing or not carried. */
  function Shown(callsign: string): (r: string)
    ensures |r| == 8
  {
    seq(8, c requires 0 <= c < 8 => if c < |callsign| && Carried(callsign[c]) then callsign[c] else ' ')
  }

  function Decoded(octets: seq<byte>): (r: string)
    requires |octets| == 6
    ensures |r| == 8
  {
    seq(8, c requires 0 <= c < 8 => CharOf(Top(Ups(Joined(octets, 6), c))))
  }

  lemma JoinedIs(o: seq<byte>)
    requires |o| == 6
    ensures Joined(o, 6) == Join(Join(Join(Join(Join(Join(Coded(0), o[0]), o[1]), o[2]), o[3]), o[4]), o[5])
  {
    hide Join;
    assert Joined(o, 0) == Coded(0) && Joined(o, 1) == Join(Joined(o, 0), o[0]);
    assert Joined(o, 2) == Join(Join(Coded(0), o[0]), o[1]);
    assert Joined(o, 4) == Join(Join(Joined(o, 2), o[2]), o[3]);
  }

  lemma AppendedIs(callsign: string, s: seq<Six>)
    requires |s| == 8 && forall c :: 0 <= c < 8 ==> s[c] == CodeOf(Symbol(callsign, c))
    ensures Appended(callsign, 8) == EightCodes(s[0], s[1], s[2], s[3], s[4], s[5], s[6], s[7])
  {
    hide Append, CodeOf, Symbol;
    assert Appended(callsign, 0) == Coded(0) && Appended(callsign, 1) == Append(Appended(callsign, 0), s[0]);
    assert Appended(callsign, 2) == Append(Append(Coded(0), s[0]), s[1]);
    assert Appended(callsign, 4) == Append(Append(Appended(callsign, 2), s[2]), s[3]);
    assert Appended(callsign, 6) == Append(Append(Appended(callsign, 4), s[4]), s[5]);
  }

  lemma UpsAre(w: Coded, c: nat)
    requires c < 8
    ensures Top(Ups(w, c)) == Reads(w)[c]
  {
    hide Top, Up;
    assert Ups(w, 0) == w && Ups(w, 1) == Up(Ups(w, 0));
    assert Ups(w, 2) == Up(Up(w));
    assert Ups(w, 4) == Up(Up(Ups(w, 2)));
    assert Ups(w, 6) == Up(Up(Ups(w, 4)));
    if c == 0 {} else if c == 1 {} else if c == 2 {} else if c == 3 {} else if c == 4 {} else if c == 5 {} else if c == 6 {} else {}
  }

  // ----- the alphabet and the packing of the Mode S standard

  /** The code of a character: 1 to 26 for the letters, 48 to 57 for the digits and 32 for a space; the table also has a mark at
      0 for the codes that carry no character. */
  function StandardCode(ch: char): (k: nat)
    ensures k < 64
  {
    if 'A' <= ch <= 'Z' then ch as nat - 64 else if '0' <= ch <= '9' then ch as nat else if ch == '#' then 0 else 32
  }

  /** Where the table has which character. */
  lemma TableIs(k: nat)
    requires k < 64
    ensures |LUT| == 64
    ensures LUT[k] as nat == if 1 <= k <= 26 then k + 64 else if k == 32 then 32 else if 48 <= k <= 57 then k else 35
  {
    assert |LUT| == 64;
    if k < 16 {
      assert LUT[k] == "#ABCDEFGHIJKLMNO"[k];
    } else if k < 32 {
      assert LUT[k] == "PQRSTUVWXYZ#####"[k - 16];
    } else if k < 48 {
      assert LUT[k] == " ###############"[k - 32];
    } else {
      assert LUT[k] == "0123456789######"[k - 48];
    }
  }

  lemma {:induction false} SearchFinds(ch: char, k: nat)
    requires k <= 64 && (k <= StandardCode(ch) || StandardCode(ch) == 32) && (k > 0 ==> ch != '#')
    ensures CodeFrom(ch, k) == StandardCode(ch)
    decreases 64 - k
  {
    if k < 64 {
      TableIs(k);
      if LUT[k] != ch {
        SearchFinds(ch, k + 1);
      }
    }
  }

  /** Every character goes out as its code in the standard's alphabet, or as a space. */
  lemma CodeIsStandard(ch: char)
    ensures Index(CodeOf(ch)) == StandardCode(ch)
  {
    hide SixOf, Index;
    SearchFinds(ch, 0);
    IndexBack(StandardCode(ch));
  }

  /** A letter, a digit or the mark comes back; any other character reads as a space. */
  lemma CarriedBack(ch: char)
    ensures CharOf(CodeOf(ch)) == if Carried(ch) then ch else ' '
  {
    CodeIsStandard(ch);
    TableIs(StandardCode(ch));
  }

  /** The six octets are the eight codes one behind the other, each with its highest bit first. */
  lemma PackedInOrder(a: Six, b: Six, c: Six, d: Six, e: Six, f: Six, g: Six, h: Six)
    ensures var o := Octets(EightCodes(a, b, c, d, e, f, g, h));
            && o[0] == (a.v as byte << 2) | (b.v as byte >> 4) && o[1] == (b.v as byte << 4) | (c.v as byte >> 2)
            && o[2] == (c.v as byte << 6) | d.v as byte && o[3] == (e.v as byte << 2) | (f.v as byte >> 4)
            && o[4] == (f.v as byte << 4) | (g.v as byte >> 2) && o[5] == (g.v as byte << 6) | h.v as byte
  {
  }

  /** The receiver shows the callsign, with spaces behind it and for every character the table has not. */
  lemma CallsignBack(callsign: string)
    ensures Decoded(Octets(Appended(callsign, 8))) == Shown(callsign)
  {
    hide CodeOf, Octets, EightCodes, Reads, Appended, Joined, CharOf, Top, Ups, Join, Carried;
    var s := seq(8, c requires 0 <= c < 8 => CodeOf(Symbol(callsign, c)));
    AppendedIs(callsign, s);
    EightThroughSix(s[0], s[1], s[2], s[3], s[4], s[5], s[6], s[7]);
    var w := Appended(callsign, 8);
    JoinedIs(Octets(w));
    forall c: nat | c < 8
      ensures Decoded(Octets(w))[c] == Shown(callsign)[c]
    {
      UpsAre(w, c);
      CarriedBack(Symbol(callsign, c));
    }
  }

  /** The character loops of encode_frame_id; the six octets follow the type octet. */
  method EncodeId(callsign: string) returns (octets: seq<byte>)
    ensures octets == Octets(Appended(callsign, 8))
    ensures Decoded(octets) == Shown(callsign)
  {
    hide Append, Octets, Decoded, Shown, SixOf;
    var coded := Coded(0);
    for c := 0 to 8
      invariant coded == Appended(callsign, c)
    {
      var ch := if c < |callsign| then callsign[c] else ' ';
      var s, k := 32, 0;
      while k < 64
        invariant 0 <= k <= 64 && s == 32 && CodeFrom(ch, 0) == CodeFrom(ch, k)
      {
        if ch == LUT[k] {
          s := k;
          break;
        }
        k := k + 1;
      }
      coded := Append(coded, SixOf(s));
    }
    octets := Octets(coded);
    CallsignBack(callsign);
  }

  /** decode_frame_id on frame octets 5 to 10. */
  method DecodeId(octets: seq<byte>) returns (callsign: string)
    requires |octets| == 6
    ensures callsign == Decoded(octets)
  {
    hide Join, Top, Up;
    var coded := Coded(0);
    for c := 0 to 6
      invariant coded == Joined(octets, c)
    {
      coded := Join(coded, octets[c]);
    }
    ghost var all := coded;
    callsign := [];
    for c := 0 to 8
      invariant coded == Ups(all, c) && |callsign| == c
      invariant forall i :: 0 <= i < c ==> callsign[i] == CharOf(Top(Ups(all, i)))
    {
      callsign := callsign + [CharOf(Top(coded))];
      coded := Up(coded);
    }
  }

  // ----- the interleaved squawk

  datatype Field = Field(v: bv16)

  /** The identity field of encode_frame_squawk: C1 A1 C2 A2 C4 A4 - B1 D1 B2 D2 B4 D4 behind three more bits. */
  function SquawkCoded(q: Field): Field {
    Field(0xA000 | ((q.v << 9) & 0x1000) | ((q.v << 2) & 0x0800) | ((q.v << 6) & 0x0400) | ((q.v >> 1) & 0x0200) |
          ((q.v << 3) & 0x0100) | ((q.v >> 4) & 0x0080) | ((q.v >> 1) & 0x0020) | ((q.v << 4) & 0x0010) |
          ((q.v >> 4) & 0x0008) | ((q.v << 1) & 0x0004) | ((q.v >> 7) & 0x0002) | ((q.v >> 2) & 0x0001))
  }

  datatype Pair = Pair(high: bv8, low: bv8)

  function PairOf(f: Field): Pair { Pair((f.v >> 8) as bv8, (f.v & 0xFF) as bv8) }

  datatype Digits = Digits(a: bv8, b: bv8, c: bv8, d: bv8)

  /** The four octal digits decode_squawk takes out of two octets. */
  function DigitsIn(s: Pair): Digits {
    Digits(((s.low & 0x80) >> 5) | (s.high & 0x02) | ((s.high & 0x08) >> 3),
           ((s.low & 0x02) << 1) | ((s.low & 0x08) >> 2) | ((s.low & 0x20) >> 5),
           ((s.high & 0x01) << 2) | ((s.high & 0x04) >> 1) | ((s.high & 0x10) >> 4),
           ((s.low & 0x01) << 2) | ((s.low & 0x04) >> 1) | ((s.low & 0x10) >> 4))
  }

  /** The octal digits of a squawk. */
  function Octal(q: Field): Digits {
    Digits(((q.v >> 9) & 7) as bv8, ((q.v >> 6) & 7) as bv8, ((q.v >> 3) & 7) as bv8, (q.v & 7) as bv8)
  }

  /** The twelve bits of a squawk cross over and back without a collision. */
  lemma SquawkBack(q: Field)
    ensures DigitsIn(PairOf(SquawkCoded(q))) == Octal(q)
  {
  }

  /** Around the digits: the last three bits of the utility message in front, and the spare bit clear. */
  lemma AroundTheSquawk(q: Field)
    ensures SquawkCoded(q).v & 0xE040 == 0xA000
  {
  }

  /** decode_squawk: the octal digits read as a decimal number. */
  method DecodeSquawk(s: Pair) returns (squawk: nat)
    ensures var g := DigitsIn(s); squawk == 1000 * (g.a as nat) + 100 * (g.b as nat) + 10 * (g.c as nat) + g.d as nat
  {
    var g := DigitsIn(s);
    squawk := g.a as nat;
    squawk := squawk * 10;
    squawk := squawk + g.b as nat;
    squawk := squawk * 10;
    squawk := squawk + g.c as nat;
    squawk := squawk * 10;
    squawk := squawk + g.d as nat;
  }
}
