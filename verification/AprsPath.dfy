/** What the digipeater path parser (AprsTxFrame::fix_path in src/apps/ui_aprs_tx.cpp) makes of any text whatever. */
module AprsPath {
  import opened Bits
  import Tx = AprsTx

  function Capital(c: byte): byte { if 0x61 <= c <= 0x7A then c - 0x20 else c }

  /** A text with its letters in upper case. */
  function Capitals(s: seq<byte>): (r: seq<byte>)
    ensures |r| == |s|
  {
    seq(|s|, i requires 0 <= i < |s| => Capital(s[i]))
  }

  // ----- lower case reads like upper case

  lemma SameKind(c: byte)
    ensures Capital(c) == Tx.SPACE <==> c == Tx.SPACE
    ensures Capital(c) == Tx.DASH <==> c == Tx.DASH
    ensures Capital(c) == Tx.COMMA <==> c == Tx.COMMA
    ensures Capital(c) == 0 <==> c == 0
    ensures Tx.IsDigit(Capital(c)) <==> Tx.IsDigit(c)
    ensures Tx.IsDigit(c) ==> Capital(c) == c
    ensures Tx.Upper(Capital(c)) == Tx.Upper(c) == Capital(c)
  {
  }

  lemma {:induction false} SameSpaces(s: seq<byte>, p: nat)
    requires p <= |s|
    ensures Tx.SkipSpaces(Capitals(s), p) == Tx.SkipSpaces(s, p)
    decreases |s| - p
  {
    hide Capital;
    if p < |s| {
      SameKind(s[p]);
      if s[p] == Tx.SPACE {
        SameSpaces(s, p + 1);
      }
    }
  }

  lemma {:induction false} SameCallEnd(s: seq<byte>, p: nat)
    requires p <= |s|
    ensures Tx.CallEnd(Capitals(s), p) == Tx.CallEnd(s, p)
    decreases |s| - p
  {
    hide Capital;
    if p < |s| {
      SameKind(s[p]);
      if s[p] != Tx.DASH && s[p] != Tx.COMMA {
        SameCallEnd(s, p + 1);
      }
    }
  }

  lemma {:induction false} SameDigitEnd(s: seq<byte>, p: nat)
    requires p <= |s|
    ensures Tx.DigitEnd(Capitals(s), p) == Tx.DigitEnd(s, p)
    decreases |s| - p
  {
    hide Capital, Tx.IsDigit;
    if p < |s| {
      SameKind(s[p]);
      if Tx.IsDigit(s[p]) {
        SameDigitEnd(s, p + 1);
      }
    }
  }

  lemma {:induction false} SameCommaEnd(s: seq<byte>, p: nat)
    requires p <= |s|
    ensures Tx.CommaEnd(Capitals(s), p) == Tx.CommaEnd(s, p)
    decreases |s| - p
  {
    hide Capital;
    if p < |s| {
      SameKind(s[p]);
      if s[p] != Tx.COMMA {
        SameCommaEnd(s, p + 1);
      }
    }
  }

  lemma {:induction false} SameCall(s: seq<byte>)
    ensures Tx.CallText(Capitals(s)) == Tx.CallText(s)
  {
    hide Capital, Tx.Upper;
    if s != [] {
      var n := |s| - 1;
      SameKind(s[n]);
      assert Capitals(s)[..n] == Capitals(s[..n]);
      SameCall(s[..n]);
    }
  }

  lemma SameDigits(s: seq<byte>, from: nat, to: nat)
    requires from <= to <= |s| && forall i :: from <= i < to ==> Tx.IsDigit(s[i])
    ensures Capitals(s)[from..to] == s[from..to]
  {
    hide Capital, Tx.IsDigit;
    forall i | from <= i < to
      ensures Capitals(s)[i] == s[i]
    {
      SameKind(s[i]);
    }
  }

  lemma SameSsid(s: seq<byte>, q: nat)
    requires q <= |s|
    ensures Tx.SsidStart(Capitals(s), q) == Tx.SsidStart(s, q) && Tx.SsidEnd(Capitals(s), q) == Tx.SsidEnd(s, q)
  {
    hide Capital, Tx.IsDigit, Tx.SkipSpaces, Tx.DigitEnd;
    if q < |s| {
      SameKind(s[q]);
      if s[q] == Tx.DASH {
        SameSpaces(s, q + 1);
        SameDigitEnd(s, Tx.SkipSpaces(s, q + 1));
      }
    }
  }

  lemma SameElement(s: seq<byte>, p: nat)
    requires p <= |s|
    ensures Tx.Element(Capitals(s), p) == Tx.Element(s, p) && Tx.NextElement(Capitals(s), p) == Tx.NextElement(s, p)
  {
    hide Capital, Tx.CallEnd, Tx.CallText, Tx.CommaEnd, Tx.SsidStart, Tx.SsidEnd, Tx.DecimalValue, Tx.Group, Tx.IsDigit;
    SameCallEnd(s, p);
    var q := Tx.CallEnd(s, p);
    SameSsid(s, q);
    assert Capitals(s)[p..q] == Capitals(s[p..q]);
    SameCall(s[p..q]);
    SameDigits(s, Tx.SsidStart(s, q), Tx.SsidEnd(s, q));
    SameCommaEnd(s, Tx.SsidEnd(s, q));
  }

  lemma {:induction false} SamePacked(s: seq<byte>, p: nat)
    requires p <= |s|
    ensures Tx.Packed(Capitals(s), p) == Tx.Packed(s, p)
    decreases |s| - p
  {
    hide Capitals, Tx.SkipSpaces, Tx.Element, Tx.NextElement;
    SameSpaces(s, p);
    var q := Tx.SkipSpaces(s, p);
    if q < |s| {
      SameElement(s, q);
      SamePacked(s, Tx.NextElement(s, q));
    }
  }

  lemma {:induction false} SameCString(s: seq<byte>)
    ensures Tx.CString(Capitals(s)) == Capitals(Tx.CString(s))
  {
    hide Capital;
    if s != [] {
      SameKind(s[0]);
      assert Capitals(s)[1..] == Capitals(s[1..]);
      SameCString(s[1..]);
    }
  }

  /** Any text packs like the same text in upper case. */
  lemma CaseDoesNotMatter(path: seq<byte>)
    ensures Tx.FixedPath(path) == Tx.FixedPath(Capitals(path))
  {
    hide Capitals, Tx.CString, Tx.Packed;
    SameCString(path);
    SamePacked(Tx.CString(path), 0);
  }

  // ----- what comes out is whole groups

  /** Seven octets: six characters, none of them a small letter, and the SSID. */
  predicate IsGroup(g: seq<byte>) {
    |g| == 7 && (forall i :: 0 <= i < 6 ==> !(0x61 <= g[i] <= 0x7A)) && 0x30 <= g[6] <= 0x3F
  }

  predicate AreGroups(g: seq<byte>)
    decreases |g|
  {
    g == [] || (|g| >= 7 && IsGroup(g[..7]) && AreGroups(g[7..]))
  }

  lemma NotSmall(c: byte)
    ensures !(0x61 <= Tx.Upper(c) <= 0x7A)
  {
  }

  lemma {:induction false} CallIsCapital(s: seq<byte>)
    ensures forall i :: 0 <= i < |Tx.CallText(s)| ==> !(0x61 <= Tx.CallText(s)[i] <= 0x7A)
  {
    hide Tx.Upper;
    if s != [] {
      NotSmall(s[|s| - 1]);
      CallIsCapital(s[..|s| - 1]);
    }
  }

  lemma SsidIsInRange(ssid: nat)
    requires ssid <= 15
    ensures 0x30 <= (ssid as byte) | 0x30 <= 0x3F
  {
    LowBits(ssid as byte);
  }

  lemma LowBits(b: byte)
    requires b <= 15
    ensures 0x30 <= b | 0x30 <= 0x3F
  {
  }

  lemma ElementIsGroup(s: seq<byte>, p: nat)
    requires p <= |s|
    ensures var e := Tx.Element(s, p); e == [] || IsGroup(e)
  {
    hide Tx.CallText, Tx.DecimalValue, Tx.CallEnd, Tx.SsidStart, Tx.SsidEnd, Tx.IsDigit;
    var q := Tx.CallEnd(s, p);
    var ssid := Tx.DecimalValue(s[Tx.SsidStart(s, q)..Tx.SsidEnd(s, q)]);
    CallIsCapital(s[p..q]);
    if ssid <= 15 {
      SsidIsInRange(ssid);
    }
  }

  lemma {:induction false} PackedAreGroups(s: seq<byte>, p: nat)
    requires p <= |s|
    ensures AreGroups(Tx.Packed(s, p))
    decreases |s| - p
  {
    hide Tx.SkipSpaces, Tx.Element, Tx.NextElement, IsGroup;
    var q := Tx.SkipSpaces(s, p);
    if q < |s| {
      ElementIsGroup(s, q);
      PackedAreGroups(s, Tx.NextElement(s, q));
      var e, rest := Tx.Element(s, q), Tx.Packed(s, Tx.NextElement(s, q));
      if e == [] {
        assert [] + rest == rest;
      } else {
        GroupSize(e);
        assert (e + rest)[..7] == e && (e + rest)[7..] == rest;
      }
    }
  }

  lemma GroupSize(g: seq<byte>)
    requires IsGroup(g)
    ensures |g| == 7
  {
  }

  lemma {:induction false} GroupsAreWhole(g: seq<byte>)
    requires AreGroups(g)
    ensures |g| % 7 == 0
    decreases |g|
  {
    if g != [] {
      GroupsAreWhole(g[7..]);
    }
  }

  /** Any text packs to whole groups without a small letter in a callsign, so that only its length decides whether the frame
      carries it: from one to nine groups. */
  lemma FixedPathIsGroups(path: seq<byte>)
    ensures AreGroups(Tx.FixedPath(path))
    ensures Tx.UsablePath(Tx.FixedPath(path)) <==> 7 <= |Tx.FixedPath(path)| <= 63
  {
    hide Tx.CString, Tx.Packed, AreGroups;
    PackedAreGroups(Tx.CString(path), 0);
    GroupsAreWhole(Tx.FixedPath(path));
  }
}
