/** What the APRS transmitter builds, the receiver prints: the path parser inverts the canonical path
    text, and the stream line of a built frame is the line an operator would write for it. */
module AprsRoundTrip {
  import opened Bits
  import Tx = AprsTx
  import Rx = AprsRx
  import Crc16
  import Ax25Line
  import Ax25Rx
  import Ax25Link

  /** A digipeater as an operator writes it, with any number for an SSID. */
  datatype Hop = Hop(call: seq<byte>, ssid: nat)

  /** One to six seven-bit characters, none of them a space. */
  predicate Callsign(call: seq<byte>) {
    1 <= |call| <= 6 && forall i :: 0 <= i < |call| ==> call[i] < 0x80 && call[i] != 0x20
  }

  /** As the path parser hands a hop back: upper case, no separator, no terminator. */
  predicate CanonicalHop(h: Hop) { Callsign(h.call) && forall i :: 0 <= i < |h.call| ==> PathCharacter(h.call[i]) }

  predicate PathCharacter(c: byte) { c != 0x2D && c != 0x2C && c != 0 && !(0x61 <= c <= 0x7A) }

  function Digit(d: nat): byte
    requires d < 10
  {
    0x30 + d as byte
  }

  /** A number in decimal digits, without leading zeros. */
  function DecimalText(n: nat): (r: seq<byte>)
    ensures r != []
  {
    (if n < 10 then [] else DecimalText(n / 10)) + [Digit(n % 10)]
  }

  function HopText(h: Hop): seq<byte> { h.call + [0x2D] + DecimalText(h.ssid) }

  /** CALL-n,CALL-n,... */
  function PathText(hops: seq<Hop>): seq<byte> {
    if hops == [] then []
    else if |hops| == 1 then HopText(hops[0])
    else HopText(hops[0]) + [0x2C] + PathText(hops[1..])
  }

  predicate InRange(h: Hop) { h.ssid <= 15 }

  /** The hops an address can hold. */
  function Kept(hops: seq<Hop>): (r: seq<Hop>)
    ensures forall h :: h in r ==> h in hops && InRange(h)
  {
    if hops == [] then [] else (if InRange(hops[0]) then [hops[0]] else []) + Kept(hops[1..])
  }

  /** The hops a frame carries: none at all where there are more than nine. */
  function Carried(hops: seq<Hop>): (r: seq<Hop>)
    ensures forall h :: h in r ==> h in hops && InRange(h)
    ensures |r| <= 9
  {
    if |Kept(hops)| <= 9 then Kept(hops) else []
  }

  /** The seven octets of an address before they are shifted. */
  function AddressGroup(call: seq<byte>, ssid: byte): (r: seq<byte>)
    ensures |r| == 7
  {
    Tx.Padded(call) + [ssid | 0x30]
  }

  function HopGroup(h: Hop): seq<byte>
    requires InRange(h)
  {
    AddressGroup(h.call, h.ssid as byte)
  }

  function Groups(hops: seq<Hop>): (r: seq<byte>)
    requires forall h :: h in hops ==> InRange(h)
    ensures |r| == 7 * |hops|
  {
    if hops == [] then [] else HopGroup(hops[0]) + Groups(hops[1..])
  }

  // ----- the path parser inverts the path text

  lemma {:induction false} CallEndIs(s: seq<byte>, p: nat, q: nat)
    requires p <= q <= |s|
    requires forall i :: p <= i < q ==> s[i] != 0x2D && s[i] != 0x2C
    requires q == |s| || s[q] == 0x2D || s[q] == 0x2C
    ensures Tx.CallEnd(s, p) == q
    decreases q - p
  {
    if p < q {
      CallEndIs(s, p + 1, q);
    }
  }

  lemma {:induction false} DigitEndIs(s: seq<byte>, p: nat, q: nat)
    requires p <= q <= |s|
    requires forall i :: p <= i < q ==> Tx.IsDigit(s[i])
    requires q == |s| || !Tx.IsDigit(s[q])
    ensures Tx.DigitEnd(s, p) == q
    decreases q - p
  {
    if p < q {
      DigitEndIs(s, p + 1, q);
    }
  }

  lemma {:induction false} CallTextIs(call: seq<byte>)
    requires |call| <= 6
    requires forall i :: 0 <= i < |call| ==> call[i] != Tx.SPACE && PathCharacter(call[i])
    ensures Tx.CallText(call) == call
  {
    if call != [] {
      var n := |call| - 1;
      CallTextIs(call[..n]);
      assert call == call[..n] + [call[n]];
    }
  }

  lemma OneDigit(d: nat)
    requires d < 10
    ensures Tx.IsDigit(Digit(d)) && Tx.DigitValue(Digit(d)) == d
  {
    if d == 0 {} else if d == 1 {} else if d == 2 {} else if d == 3 {} else if d == 4 {}
    else if d == 5 {} else if d == 6 {} else if d == 7 {} else if d == 8 {} else {}
  }

  predicate AllDigits(d: seq<byte>) { forall c :: c in d ==> Tx.IsDigit(c) }

  lemma DigitPushed(d: seq<byte>, c: byte)
    requires AllDigits(d) && Tx.IsDigit(c)
    ensures AllDigits(d + [c]) && Tx.DecimalValue(d + [c]) == 10 * Tx.DecimalValue(d) + Tx.DigitValue(c)
  {
    hide Tx.IsDigit, Tx.DigitValue;
    assert (d + [c])[..|d|] == d;
  }

  lemma NoDigits()
    ensures AllDigits([]) && Tx.DecimalValue([]) == 0
  {
  }

  /** The digits are read as the number they stand for. */
  lemma {:induction false} DecimalDigits(n: nat)
    ensures AllDigits(DecimalText(n)) && Tx.DecimalValue(DecimalText(n)) == n
  {
    hide Tx.IsDigit, Tx.DigitValue, Digit, AllDigits, Tx.DecimalValue;
    OneDigit(n % 10);
    if n >= 10 {
      DecimalDigits(n / 10);
      DigitPushed(DecimalText(n / 10), Digit(n % 10));
    } else {
      NoDigits();
      DigitPushed([], Digit(n % 10));
    }
  }

  /** Where the pieces of a hop stand that is found at `p`. */
  lemma HopLayout(s: seq<byte>, p: nat, call: seq<byte>, digits: seq<byte>)
    requires var n := |call| + 1 + |digits|; p + n <= |s| && s[p..p + n] == call + [0x2D] + digits
    ensures var q := p + |call|;
            && s[p..q] == call && s[q] == 0x2D && s[q + 1..q + 1 + |digits|] == digits
            && (forall i :: p <= i < q ==> s[i] == call[i - p])
            && (forall i :: q + 1 <= i < q + 1 + |digits| ==> s[i] == digits[i - q - 1])
  {
    var q, e := p + |call|, p + |call| + 1 + |digits|;
    assert s[p..q] == s[p..e][..|call|];
    assert s[q] == s[p..e][|call|];
    assert s[q + 1..e] == s[p..e][|call| + 1..];
  }

  /** One hop at `p`, followed by the end of the path or a comma. */
  lemma HopIsElement(s: seq<byte>, p: nat, h: Hop)
    requires CanonicalHop(h) && p + |HopText(h)| <= |s|
    requires s[p..p + |HopText(h)|] == HopText(h)
    requires p + |HopText(h)| == |s| || s[p + |HopText(h)|] == 0x2C
    ensures Tx.SkipSpaces(s, p) == p && p < |s|
    ensures Tx.Element(s, p) == if InRange(h) then HopGroup(h) else []
    ensures Tx.NextElement(s, p) == if p + |HopText(h)| == |s| then |s| else p + |HopText(h)| + 1
  {
    hide DecimalText, Tx.CallText, Tx.DecimalValue, Tx.Padded, PathCharacter, Tx.CommaEnd, AddressGroup, Tx.Group,
         Tx.SkipSpaces, Tx.CallEnd, Tx.SsidStart, Tx.SsidEnd;
    var d := DecimalText(h.ssid);
    var q, e := p + |h.call|, p + |HopText(h)|;
    HopLayout(s, p, h.call, d);
    DecimalDigits(h.ssid);
    CallIsRead(s, p, q, h.call);
    SsidIsRead(s, q, e, d);
    GroupIs(h.call, h.ssid);
    CommaEndHere(s, e);
  }

  lemma GroupIs(call: seq<byte>, ssid: nat)
    ensures Tx.Group(call, ssid) == if ssid <= 15 then AddressGroup(call, ssid as byte) else []
  {
    hide Tx.Padded;
  }

  lemma CommaEndHere(s: seq<byte>, e: nat)
    requires e <= |s| && (e == |s| || s[e] == 0x2C)
    ensures Tx.CommaEnd(s, e) == e
  {
  }

  lemma CallIsRead(s: seq<byte>, p: nat, q: nat, call: seq<byte>)
    requires p < q < |s| && s[p..q] == call && s[q] == 0x2D && Callsign(call)
    requires forall i :: p <= i < q ==> s[i] == call[i - p]
    requires forall i :: 0 <= i < |call| ==> PathCharacter(call[i])
    ensures Tx.SkipSpaces(s, p) == p && Tx.CallEnd(s, p) == q && Tx.CallText(s[p..q]) == call
  {
    hide Tx.CallText;
    CallEndIs(s, p, q);
    CallTextIs(call);
  }

  lemma SsidIsRead(s: seq<byte>, q: nat, e: nat, digits: seq<byte>)
    requires q + 1 < e <= |s| && s[q] == 0x2D && s[q + 1..e] == digits
    requires forall i :: 0 <= i < |digits| ==> Tx.IsDigit(digits[i])
    requires forall i :: q + 1 <= i < e ==> s[i] == digits[i - q - 1]
    requires e == |s| || s[e] == 0x2C
    ensures Tx.SsidStart(s, q) == q + 1 && Tx.SsidEnd(s, q) == e
  {
    assert Tx.IsDigit(digits[0]);
    assert Tx.SkipSpaces(s, q + 1) == q + 1;
    DigitEndIs(s, q + 1, e);
  }

  lemma {:induction false} PackedIsGroups(s: seq<byte>, p: nat, hops: seq<Hop>)
    requires p <= |s| && s[p..] == PathText(hops)
    requires forall h :: h in hops ==> CanonicalHop(h)
    ensures Tx.Packed(s, p) == Groups(Kept(hops))
    decreases |hops|
  {
    hide Tx.Element, Tx.NextElement, Tx.SkipSpaces, HopText, CanonicalHop, HopGroup, InRange;
    if hops == [] {
      assert Tx.SkipSpaces(s, p) == p;
    } else {
      var t := HopText(hops[0]);
      assert s[p..][..|t|] == t;
      assert s[p..p + |t|] == s[p..][..|t|];
      if |hops| > 1 {
        assert s[p + |t|] == s[p..][|t|] == 0x2C;
      }
      HopIsElement(s, p, hops[0]);
      var n := Tx.NextElement(s, p);
      if |hops| > 1 {
        assert s[n..] == s[p..][|t| + 1..];
        assert PathText(hops)[|t| + 1..] == PathText(hops[1..]);
      } else {
        assert s[n..] == PathText(hops[1..]);
      }
      PackedIsGroups(s, n, hops[1..]);
      if InRange(hops[0]) {
        assert Kept(hops)[1..] == Kept(hops[1..]);
      } else {
        assert Kept(hops) == Kept(hops[1..]);
      }
    }
  }

  lemma {:induction false} NoTerminator(hops: seq<Hop>)
    requires forall h :: h in hops ==> CanonicalHop(h)
    ensures forall i :: 0 <= i < |PathText(hops)| ==> PathText(hops)[i] != 0
  {
    if hops != [] {
      hide DecimalText, InRange;
      assert hops[0] in hops;
      HopHasNoNul(hops[0]);
      NoTerminator(hops[1..]);
    }
  }

  lemma HopHasNoNul(h: Hop)
    requires CanonicalHop(h)
    ensures forall i :: 0 <= i < |HopText(h)| ==> HopText(h)[i] != 0
  {
    hide DecimalText, Tx.DecimalValue;
    DecimalDigits(h.ssid);
    var d := DecimalText(h.ssid);
    forall i | 0 <= i < |d|
      ensures d[i] != 0
    {
      assert d[i] in d;
      assert Tx.IsDigit(d[i]);
    }
  }

  /** fix_path inverts the canonical path text, for hops with any SSIDs: those an address cannot hold are left out. */
  lemma FixPathInvertsPathText(hops: seq<Hop>)
    requires forall h :: h in hops ==> CanonicalHop(h)
    ensures Tx.FixedPath(PathText(hops)) == Groups(Kept(hops))
  {
    hide CanonicalHop, Tx.CString;
    NoTerminator(hops);
    var s := PathText(hops);
    assert s[0..] == s;
    PackedIsGroups(s, 0, hops);
  }

  // ----- the address parser inverts the address builder

  lemma ShiftBack(c: byte, mark: bool)
    ensures Rx.Extends(Tx.ShiftedOctet(c, mark)) <==> !mark
  {
  }

  lemma SsidBack(ssid: byte, mark: bool)
    requires ssid <= 15
    ensures Rx.SsidOf(Tx.ShiftedOctet(ssid | 0x30, mark)) == ssid
  {
  }

  lemma SsidCut(ssid: byte)
    ensures ssid & 0x0F <= 15 && Tx.SsidOctet(ssid) == (ssid & 0x0F) | 0x30
  {
  }

  /** What is shown of an SSID: nothing for an end point's zero. */
  function Suffix(ssid: nat, always: bool): seq<byte> { if ssid == 0 && !always then [] else [0x2D] + DecimalText(ssid) }

  lemma SuffixIs(ssid: byte, kind: Rx.AddressType)
    requires ssid <= 15
    ensures Rx.SsidText(ssid, kind) == Suffix(ssid as nat, kind == Rx.Repeater)
  {
    DecimalIs(ssid);
  }

  lemma TextUpToFifteen(n: nat)
    requires n <= 15
    ensures DecimalText(n) == if n < 10 then [Digit(n)] else [0x31, Digit(n - 10)]
  {
    hide Digit;
    if n >= 10 {
      assert n / 10 == 1 && n % 10 == n - 10;
      assert DecimalText(1) == [Digit(1)];
      DigitIs(1);
    }
  }

  lemma DigitIs(n: byte)
    requires n < 10
    ensures Digit(n as nat) == 0x30 + n
  {
  }

  lemma LessTen(n: byte)
    requires 10 <= n <= 15
    ensures n as nat >= 10 && n as nat - 10 == (n - 10) as nat && 0x30 + n - 10 == 0x30 + (n - 10)
  {
  }

  lemma DecimalIs(n: byte)
    requires n <= 15
    ensures Rx.Decimal(n) == DecimalText(n as nat)
  {
    hide Digit, DecimalText;
    TextUpToFifteen(n as nat);
    if n < 10 {
      DigitIs(n);
    } else {
      LessTen(n);
      DigitIs(n - 10);
    }
  }

  /** Seven octets of `frame` at `start` are an address on the air. */
  predicate HoldsAddress(frame: seq<byte>, start: nat, call: seq<byte>, ssid: byte, mark: bool) {
    && start + 7 <= |frame| - 2
    && (forall i :: 0 <= i < 6 ==> frame[start + i] == Tx.ShiftedOctet(Tx.Padded(call)[i], false))
    && frame[start + 6] == Tx.ShiftedOctet(ssid | 0x30, mark)
  }

  /** An octet as it comes back from an address. */
  function SevenBits(c: byte): byte { c & 0x7F }

  /** What comes back of a callsign: seven bits of each octet, spaces dropped. */
  function Squeezed(call: seq<byte>): seq<byte> {
    if call == [] then []
    else
      var c := SevenBits(call[|call| - 1]);
      Squeezed(call[..|call| - 1]) + if c != 0x20 then [c] else []
  }

  lemma ShiftedBack(c: byte)
    ensures Tx.ShiftedOctet(c, false) >> 1 == SevenBits(c)
  {
  }

  lemma SevenBitsIff(c: byte)
    ensures SevenBits(c) == c <==> c < 0x80
    ensures SevenBits(0x20) == 0x20
  {
  }

  /** It is the callsign exactly when that has seven-bit characters and no space. */
  lemma {:induction false} SqueezedIff(call: seq<byte>)
    ensures |Squeezed(call)| <= |call|
    ensures Squeezed(call) == call <==> forall i :: 0 <= i < |call| ==> call[i] < 0x80 && call[i] != 0x20
  {
    hide SevenBits;
    if call != [] {
      var n := |call| - 1;
      SqueezedIff(call[..n]);
      SevenBitsIff(call[n]);
      assert call == call[..n] + [call[n]];
    }
  }

  lemma {:induction false} SqueezedPadded(call: seq<byte>, n: nat)
    requires |call| <= n <= 6
    ensures Squeezed(Tx.Padded(call)[..n]) == Squeezed(call)
    decreases n
  {
    hide SevenBits;
    if n == |call| {
      assert Tx.Padded(call)[..n] == call;
    } else {
      SqueezedPadded(call, n - 1);
      SevenBitsIff(0x20);
      assert Tx.Padded(call)[..n][..n - 1] == Tx.Padded(call)[..n - 1];
    }
  }

  lemma {:induction false} CallBack(frame: seq<byte>, start: nat, call: seq<byte>, ssid: byte, mark: bool,
                                    kind: Rx.AddressType, n: nat)
    requires HoldsAddress(frame, start, call, ssid, mark) && n <= 6
    ensures Rx.AddressPrefix(frame, start, kind, n) == Squeezed(Tx.Padded(call)[..n])
  {
    hide Tx.ShiftedOctet, Tx.Padded, SevenBits;
    if n > 0 {
      CallBack(frame, start, call, ssid, mark, kind, n - 1);
      assert frame[start + (n - 1)] == Tx.ShiftedOctet(Tx.Padded(call)[n - 1], false);
      ShiftedBack(Tx.Padded(call)[n - 1]);
      assert Tx.Padded(call)[..n][..n - 1] == Tx.Padded(call)[..n - 1];
    }
  }

  /** The address text is seven bits of each of the callsign's characters, spaces dropped, and the SSID; so it is the
      callsign with its SSID exactly for a callsign of seven-bit characters without a space. */
  lemma AddressBack(frame: seq<byte>, start: nat, call: seq<byte>, ssid: byte, mark: bool, kind: Rx.AddressType)
    requires HoldsAddress(frame, start, call, ssid, mark) && 1 <= |call| <= 6 && ssid <= 15
    ensures var suffix := Suffix(ssid as nat, kind == Rx.Repeater);
            && Rx.AddressText(frame, start, kind) == Squeezed(call) + suffix
            && (Rx.AddressText(frame, start, kind) == call + suffix <==> Callsign(call))
    ensures Rx.HasMore(frame, start) <==> !mark
  {
    hide Tx.ShiftedOctet, Rx.SsidText, Rx.SsidOf, Rx.Extends, Tx.Padded, Squeezed, Suffix;
    CallBack(frame, start, call, ssid, mark, kind, 6);
    assert Tx.Padded(call)[..6] == Tx.Padded(call);
    SqueezedPadded(call, 6);
    SqueezedIff(call);
    SsidBack(ssid, mark);
    SuffixIs(ssid, kind);
    ShiftBack(ssid | 0x30, mark);
    SameSuffix(Squeezed(call), call, Suffix(ssid as nat, kind == Rx.Repeater));
  }

  lemma SameSuffix<T>(a: seq<T>, b: seq<T>, suffix: seq<T>)
    ensures a + suffix == b + suffix <==> a == b
  {
    if a + suffix == b + suffix {
      assert (a + suffix)[..|a|] == a && (b + suffix)[..|b|] == b;
    }
  }

  // ----- the digipeater walk inverts the packed path

  lemma ShiftedSplit(data: seq<byte>, n: nat, isLast: bool)
    requires n < |data|
    ensures Tx.Shifted(data, isLast) == Tx.Shifted(data[..n], false) + Tx.Shifted(data[n..], isLast)
  {
    hide Tx.ShiftedOctet;
  }

  lemma GroupHeld(frame: seq<byte>, start: nat, call: seq<byte>, ssid: byte, mark: bool)
    requires start + 7 <= |frame| - 2
    requires frame[start..start + 7] == Tx.Shifted(AddressGroup(call, ssid), mark)
    ensures HoldsAddress(frame, start, call, ssid, mark)
  {
    hide Tx.ShiftedOctet;
    var w := frame[start..start + 7];
    assert forall i {:trigger w[i]} :: 0 <= i < 7 ==> frame[start + i] == w[i];
  }

  lemma ShiftedGroups(hops: seq<Hop>)
    requires hops != [] && forall h :: h in hops ==> InRange(h)
    ensures Tx.Shifted(Groups(hops), true) ==
            Tx.Shifted(HopGroup(hops[0]), |hops| == 1) + Tx.Shifted(Groups(hops[1..]), true)
  {
    hide Tx.Shifted, AddressGroup, InRange;
    var first, rest := HopGroup(hops[0]), Groups(hops[1..]);
    TwoPieces(first, rest);
    if |hops| > 1 {
      ShiftedSplit(first + rest, 7, true);
    } else {
      assert first + rest == first;
      ShiftedNothing();
    }
  }

  /** The walk's next step: the first group, and the rest right behind it. */
  lemma FirstGroup(frame: seq<byte>, position: nat, hops: seq<Hop>, end: nat)
    requires hops != [] && (forall h :: h in hops ==> InRange(h)) && end == position + 7 * |hops| <= |frame|
    requires frame[position..end] == Tx.Shifted(Groups(hops), true)
    ensures frame[position..position + 7] == Tx.Shifted(HopGroup(hops[0]), |hops| == 1)
    ensures frame[position + 7..end] == Tx.Shifted(Groups(hops[1..]), true)
  {
    hide *;
    ShiftedGroups(hops);
    var first, rest := Tx.Shifted(HopGroup(hops[0]), |hops| == 1), Tx.Shifted(Groups(hops[1..]), true);
    SplitSlice(frame, position, position + 7, end, first, rest);
  }

  /** A slice made of two pieces, with the bounds spelt out. */
  lemma SplitSlice<T>(s: seq<T>, from: nat, mid: nat, to: nat, first: seq<T>, rest: seq<T>)
    requires from <= mid <= to <= |s| && s[from..to] == first + rest && |first| == mid - from
    ensures s[from..mid] == first && s[mid..to] == rest
  {
    assert s[from..mid] == s[from..to][..mid - from];
    assert s[mid..to] == s[from..to][mid - from..];
  }

  lemma TwoPieces<T>(a: seq<T>, b: seq<T>)
    ensures (a + b)[..|a|] == a && (a + b)[|a|..] == b
  {
  }

  lemma ShiftedNothing()
    ensures Tx.Shifted([], true) == []
  {
  }

  lemma OneRepeater(frame: seq<byte>, position: nat, h: Hop, mark: bool)
    requires CanonicalHop(h) && InRange(h) && position + 7 <= |frame| - 2
    requires frame[position..position + 7] == Tx.Shifted(HopGroup(h), mark)
    ensures Rx.AddressText(frame, position, Rx.Repeater) == HopText(h) && (Rx.HasMore(frame, position) <==> !mark)
  {
    hide Rx.AddressText, Rx.HasMore, HoldsAddress, Tx.Shifted, AddressGroup, DecimalText, Squeezed, PathCharacter;
    var ssid := h.ssid as byte;
    GroupHeld(frame, position, h.call, ssid, mark);
    AddressBack(frame, position, h.call, ssid, mark, Rx.Repeater);
    assert h.call + ([0x2D] + DecimalText(h.ssid)) == HopText(h);
  }

  lemma {:induction false} RepeatersBack(frame: seq<byte>, position: nat, hops: seq<Hop>)
    requires hops != [] && position + 7 * |hops| <= |frame| - 2
    requires forall h :: h in hops ==> CanonicalHop(h) && InRange(h)
    requires frame[position..position + 7 * |hops|] == Tx.Shifted(Groups(hops), true)
    ensures Rx.RepeatersFrom(frame, position) == PathText(hops)
    ensures Rx.RepeaterCount(frame, position) == |hops|
    decreases |hops|
  {
    hide Rx.AddressText, Rx.HasMore, Tx.Shifted, Groups, HopGroup, HopText, CanonicalHop, InRange;
    FirstGroup(frame, position, hops, position + 7 * |hops|);
    assert hops[0] in hops;
    OneRepeater(frame, position, hops[0], |hops| == 1);
    if |hops| > 1 {
      RepeatersBack(frame, position + 7, hops[1..]);
      assert HopText(hops[0]) + ([0x2C] + PathText(hops[1..])) == PathText(hops);
    }
  }

  // ----- the frame, octet by octet

  /** What an operator enters: callsigns an address can hold, and a path written in the canonical way. */
  predicate Enterable(p: Tx.Parts, hops: seq<Hop>) {
    Callsign(p.src) && Callsign(p.dest) && (forall h :: h in hops ==> CanonicalHop(h)) && p.path == PathText(hops)
  }

  /** Where the parts of a built frame stand. */
  lemma FrameLayout(p: Tx.Parts, hops: seq<Hop>, frame: seq<byte>, end: nat)
    requires Enterable(p, hops) && |frame| == |Tx.FrameOctets(p)| + 2 && Tx.FrameOctets(p) <= frame
    requires end == 14 + 7 * |Carried(hops)|
    ensures end + 2 <= |frame| - 2
    ensures frame[..14] == Tx.Shifted(Tx.Address(p.dest, p.destSsid, p.src, p.srcSsid), Carried(hops) == [])
    ensures Carried(hops) != [] ==> frame[14..end] == Tx.Shifted(Groups(Carried(hops)), true)
    ensures frame[end..end + 2] == [0x03, 0xF0]
    ensures frame[end + 2..|frame| - 2] == p.payload
  {
    hide *;
    var a, b, c := FramePieces(p, hops);
    FourPieces(a, b, c, p.payload, frame, end);
  }

  lemma FramePieces(p: Tx.Parts, hops: seq<Hop>) returns (a: seq<byte>, b: seq<byte>, c: seq<byte>)
    requires Enterable(p, hops)
    ensures Tx.FrameOctets(p) == a + b + c + p.payload
    ensures a == Tx.Shifted(Tx.Address(p.dest, p.destSsid, p.src, p.srcSsid), Carried(hops) == []) && |a| == 14
    ensures (Carried(hops) != [] ==> b == Tx.Shifted(Groups(Carried(hops)), true)) && |b| == 7 * |Carried(hops)|
    ensures c == [0x03, 0xF0] && |c| == 2
  {
    a := Tx.Shifted(Tx.Address(p.dest, p.destSsid, p.src, p.srcSsid), Carried(hops) == []);
    b := if Carried(hops) != [] then Tx.Shifted(Groups(Carried(hops)), true) else [];
    c := [0x03, 0xF0];
    hide Tx.Shifted, Callsign, CanonicalHop, Groups, Tx.FixedPath, PathText, Tx.UsablePath, Tx.Address, Kept;
    FixPathInvertsPathText(hops);
    UsableGroups(Kept(hops));
  }

  lemma EndPointsHeld(p: Tx.Parts, frame: seq<byte>, mark: bool)
    requires 16 <= |frame|
    requires frame[..14] == Tx.Shifted(Tx.Address(p.dest, p.destSsid, p.src, p.srcSsid), mark)
    ensures HoldsAddress(frame, 0, p.dest, p.destSsid & 0x0F, false)
    ensures HoldsAddress(frame, 7, p.src, p.srcSsid & 0x0F, mark)
  {
    hide HoldsAddress, Tx.Shifted, AddressGroup, Tx.Address;
    var address := Tx.Address(p.dest, p.destSsid, p.src, p.srcSsid);
    var to, from := AddressGroup(p.dest, p.destSsid & 0x0F), AddressGroup(p.src, p.srcSsid & 0x0F);
    AddressIsGroups(p);
    TwoPieces(to, from);
    ShiftedSplit(address, 7, mark);
    assert frame[0..14] == frame[..14];
    SplitSlice(frame, 0, 7, 14, Tx.Shifted(to, false), Tx.Shifted(from, mark));
    GroupHeld(frame, 0, p.dest, p.destSsid & 0x0F, false);
    GroupHeld(frame, 7, p.src, p.srcSsid & 0x0F, mark);
  }

  lemma AddressIsGroups(p: Tx.Parts)
    ensures Tx.Address(p.dest, p.destSsid, p.src, p.srcSsid) ==
            AddressGroup(p.dest, p.destSsid & 0x0F) + AddressGroup(p.src, p.srcSsid & 0x0F)
  {
    hide Tx.Padded, Tx.SsidOctet;
    SsidCut(p.destSsid);
    SsidCut(p.srcSsid);
  }

  lemma FourPieces<T>(a: seq<T>, b: seq<T>, c: seq<T>, d: seq<T>, whole: seq<T>, j: nat)
    requires a + b + c + d <= whole && |whole| == |a + b + c + d| + 2
    requires |a| == 14 && 14 + |b| == j && |c| == 2
    ensures j + 2 <= |whole| - 2
    ensures whole[..14] == a && whole[14..j] == b && whole[j..j + 2] == c && whole[j + 2..|whole| - 2] == d
  {
    var front := a + b + c + d;
    assert whole[..|front|] == front;
    assert whole[..14] == front[..14];
    assert whole[14..j] == front[14..j];
    assert whole[j..j + 2] == front[j..j + 2];
    assert whole[j + 2..|front|] == front[j + 2..];
  }

  lemma UsableGroups(hops: seq<Hop>)
    requires forall h :: h in hops ==> InRange(h)
    ensures |Groups(hops)| == 7 * |hops|
    ensures Tx.UsablePath(Groups(hops)) <==> 1 <= |hops| <= 9
  {
    hide Groups;
    assert (7 * |hops|) % 7 == 0;
  }

  /** The SSID octet of an address, and the six in front of it, as they go on the air. */
  lemma OctetsOfAddress(frame: seq<byte>, start: nat, call: seq<byte>, ssid: byte, mark: bool)
    requires HoldsAddress(frame, start, call, ssid, mark) && ssid <= 15
    ensures frame[start + 6] == 0x60 | (ssid << 1) | (if mark then 1 else 0)
    ensures forall i :: 0 <= i < 6 ==> frame[start + i] == (if i < |call| then call[i] else 0x20) << 1
  {
    MarkedOctet(ssid, mark);
    forall i | 0 <= i < 6
      ensures frame[start + i] == (if i < |call| then call[i] else 0x20) << 1
    {
      assert frame[start + i] == Tx.ShiftedOctet(Tx.Padded(call)[i], false);
    }
  }

  lemma MarkedOctet(ssid: byte, mark: bool)
    requires ssid <= 15
    ensures Tx.ShiftedOctet(ssid | 0x30, mark) == 0x60 | (ssid << 1) | (if mark then 1 else 0)
  {
    if mark {} else {}
  }

  // ----- the printed line

  /** The line an operator would write for the frame. */
  function ExpectedLine(p: Tx.Parts, hops: seq<Hop>): seq<byte> {
    p.src + Suffix((p.srcSsid & 0x0F) as nat, false) + [0x3E] + p.dest + Suffix((p.destSsid & 0x0F) as nat, false) +
    (if Carried(hops) == [] then [] else [0x2C] + PathText(Carried(hops))) + [0x3A] + p.payload
  }

  /** The digipeaters of a built frame, and where they end. */
  lemma DigipeatersBack(p: Tx.Parts, hops: seq<Hop>, frame: seq<byte>)
    requires Enterable(p, hops) && |frame| == |Tx.FrameOctets(p)| + 2 && Tx.FrameOctets(p) <= frame
    requires Rx.HasMore(frame, 7) <==> Carried(hops) != []
    ensures Rx.DigipeaterText(frame) == if Carried(hops) == [] then [] else [0x2C] + PathText(Carried(hops))
    ensures Rx.Digipeaters(frame) == |Carried(hops)|
  {
    hide Tx.FrameOctets, PathText, Rx.HasMore, Rx.RepeatersFrom, Rx.RepeaterCount, Tx.Shifted, Carried, InRange, Groups,
         Tx.Address, Callsign, PathCharacter;
    var carried := Carried(hops);
    FrameLayout(p, hops, frame, 14 + 7 * |carried|);
    if carried != [] {
      RepeatersBack(frame, 14, carried);
    }
  }

  /** The end points of a built frame. */
  lemma EndPointsBack(p: Tx.Parts, hops: seq<Hop>, frame: seq<byte>)
    requires Enterable(p, hops) && |frame| == |Tx.FrameOctets(p)| + 2 && Tx.FrameOctets(p) <= frame
    ensures Rx.AddressText(frame, 7, Rx.Source) == p.src + Suffix((p.srcSsid & 0x0F) as nat, false)
    ensures Rx.AddressText(frame, 0, Rx.Destination) == p.dest + Suffix((p.destSsid & 0x0F) as nat, false)
    ensures Rx.HasMore(frame, 7) <==> Carried(hops) != []
  {
    hide Tx.FrameOctets, HoldsAddress, Suffix, PathText, Rx.AddressText, Rx.HasMore, Tx.Shifted, Carried, Squeezed, InRange,
         Groups, Tx.Address, PathCharacter;
    var mark := Carried(hops) == [];
    FrameLayout(p, hops, frame, 14 + 7 * |Carried(hops)|);
    EndPointsHeld(p, frame, mark);
    SsidCut(p.srcSsid);
    SsidCut(p.destSsid);
    AddressBack(frame, 7, p.src, p.srcSsid & 0x0F, mark, Rx.Source);
    AddressBack(frame, 0, p.dest, p.destSsid & 0x0F, false, Rx.Destination);
  }

  lemma StreamIs(frame: seq<byte>, source: seq<byte>, call: seq<byte>, suffix: seq<byte>, path: seq<byte>, payload: seq<byte>)
    requires Rx.AddressText(frame, 7, Rx.Source) == source && Rx.AddressText(frame, 0, Rx.Destination) == call + suffix
    requires Rx.DigipeaterText(frame) == path && Rx.InformationText(frame) == payload
    ensures Rx.StreamText(frame) == source + [0x3E] + call + suffix + path + [0x3A] + payload
  {
    hide Rx.AddressText, Rx.DigipeaterText, Rx.InformationText;
    assert source + [0x3E] + (call + suffix) == source + [0x3E] + call + suffix;
  }

  lemma InformationIs(frame: seq<byte>, hops: nat)
    requires Rx.Digipeaters(frame) == hops && 16 + 7 * hops <= |frame| - 2
    ensures Rx.InformationStart(frame) == 16 + 7 * hops
    ensures Rx.InformationText(frame) == frame[16 + 7 * hops..|frame| - 2]
  {
    hide Rx.Digipeaters;
  }

  /** The receiver prints a built frame as source, destination, digipeaters and payload, whatever the
      two octets behind it. */
  lemma PrinterInvertsBuilder(p: Tx.Parts, hops: seq<Hop>, frame: seq<byte>)
    requires Enterable(p, hops) && |frame| == |Tx.FrameOctets(p)| + 2 && Tx.FrameOctets(p) <= frame
    ensures Rx.StreamText(frame) == ExpectedLine(p, hops)
    ensures Rx.InformationStart(frame) == 16 + 7 * |Carried(hops)|
  {
    hide *;
    EndPointsBack(p, hops, frame);
    DigipeatersBack(p, hops, frame);
    FrameLayout(p, hops, frame, 14 + 7 * |Carried(hops)|);
    InformationIs(frame, |Carried(hops)|);
    var from, to := Suffix((p.srcSsid & 0x0F) as nat, false), Suffix((p.destSsid & 0x0F) as nat, false);
    var path := if Carried(hops) == [] then [] else [0x2C] + PathText(Carried(hops));
    StreamIs(frame, p.src + from, p.dest, to, path, p.payload);
    ExpectedIs(p, hops);
  }

  lemma ExpectedIs(p: Tx.Parts, hops: seq<Hop>)
    ensures var from, to := Suffix((p.srcSsid & 0x0F) as nat, false), Suffix((p.destSsid & 0x0F) as nat, false);
            var path := if Carried(hops) == [] then [] else [0x2C] + PathText(Carried(hops));
            ExpectedLine(p, hops) == p.src + from + [0x3E] + p.dest + to + path + [0x3A] + p.payload
  {
    hide Suffix, PathText, Carried;
  }

  // ----- frames heard through a digipeater

  /** The same frame but for the top three bits of its SSID octets: the repeated bit and the two reserved ones. */
  predicate SameButReserved(heard: seq<byte>, sent: seq<byte>, end: nat) {
    && |heard| == |sent|
    && forall i :: 0 <= i < |sent| ==>
         if i % 7 == 6 && i < end then heard[i] & 0x1F == sent[i] & 0x1F else heard[i] == sent[i]
  }

  /** An SSID is a number of four bits, behind the extension bit and in front of the three others. */
  lemma SsidIsNumber(octet: byte)
    ensures Rx.SsidOf(octet) as nat == octet as nat / 2 % 16
  {
    SsidBits(octet);
    HalvedIs(octet);
    LowFour(octet >> 1);
  }

  lemma SsidBits(octet: byte)
    ensures Rx.SsidOf(octet) == (octet >> 1) & 0x0F
  {
  }

  lemma HalvedIs(octet: byte)
    ensures (octet >> 1) as nat == octet as nat / 2
  {
  }

  lemma LowFour(x: byte)
    ensures (x & 0x0F) as nat == x as nat % 16
  {
  }

  lemma ReservedIgnored(a: byte, b: byte)
    requires a & 0x1F == b & 0x1F
    ensures Rx.SsidOf(a) == Rx.SsidOf(b) && (Rx.Extends(a) <==> Rx.Extends(b))
  {
  }

  lemma {:induction false} PrefixIgnores(f: seq<byte>, g: seq<byte>, end: nat, start: nat, kind: Rx.AddressType, n: nat)
    requires SameButReserved(f, g, end) && start % 7 == 0 && n <= 7 && (n == 0 || start + n <= |f| - 2)
    ensures Rx.AddressPrefix(f, start, kind, n) == Rx.AddressPrefix(g, start, kind, n)
  {
    hide Rx.SsidText, Rx.SsidOf, Rx.Extends;
    if n > 0 {
      PrefixIgnores(f, g, end, start, kind, n - 1);
      if n == 7 {
        assert (start + 6) % 7 == 6;
        ReservedIgnored(f[start + 6], g[start + 6]);
      } else {
        assert (start + n - 1) % 7 == n - 1;
      }
    }
  }

  /** On any octets whatever: the text of an address and its extension do not depend on the three bits. */
  lemma AddressIgnores(f: seq<byte>, g: seq<byte>, end: nat, start: nat, kind: Rx.AddressType)
    requires SameButReserved(f, g, end) && start % 7 == 0
    ensures Rx.AddressText(f, start, kind) == Rx.AddressText(g, start, kind)
    ensures Rx.HasMore(f, start) <==> Rx.HasMore(g, start)
  {
    hide Rx.AddressPrefix, Rx.Extends, Rx.SsidOf;
    PrefixIgnores(f, g, end, start, kind, Rx.AddressReach(f, start));
    if start + 7 <= |f| - 2 {
      assert (start + 6) % 7 == 6;
      ReservedIgnored(f[start + 6], g[start + 6]);
    }
  }

  lemma {:induction false} WalkIgnores(f: seq<byte>, g: seq<byte>, end: nat, position: nat)
    requires SameButReserved(f, g, end) && position % 7 == 0
    ensures Rx.RepeatersFrom(f, position) == Rx.RepeatersFrom(g, position)
    ensures Rx.RepeaterCount(f, position) == Rx.RepeaterCount(g, position)
    decreases |f| - position
  {
    hide Rx.AddressText, Rx.HasMore, SameButReserved;
    AddressIgnores(f, g, end, position, Rx.Repeater);
    SameLength(f, g, end);
    if Rx.HasMore(f, position) {
      MoreIsInside(f, position);
      assert (position + 7) % 7 == 0;
      WalkIgnores(f, g, end, position + 7);
    }
  }

  lemma SameLength(f: seq<byte>, g: seq<byte>, end: nat)
    requires SameButReserved(f, g, end)
    ensures |f| == |g|
  {
  }

  lemma MoreIsInside(f: seq<byte>, position: nat)
    requires Rx.HasMore(f, position)
    ensures position + 7 <= |f| - 2
  {
  }

  /** On any octets whatever: the printed line of a frame does not depend on the repeated bit or the reserved bits of any
      of its SSID octets. */
  lemma ReservedBitsIgnored(f: seq<byte>, g: seq<byte>)
    requires SameButReserved(f, g, Rx.InformationStart(g) - 2)
    ensures Rx.StreamText(f) == Rx.StreamText(g)
  {
    hide Rx.AddressText, Rx.HasMore, Rx.RepeatersFrom, Rx.RepeaterCount;
    var end := Rx.InformationStart(g) - 2;
    AddressIgnores(f, g, end, 0, Rx.Destination);
    AddressIgnores(f, g, end, 7, Rx.Source);
    WalkIgnores(f, g, end, 14);
    var n := Rx.InformationStart(g);
    assert Rx.InformationStart(f) == n;
    if n <= |f| - 2 {
      assert f[n..|f| - 2] == g[n..|g| - 2];
    }
  }

  /** A built frame is printed the same when it is heard through digipeaters that set any of those bits. */
  lemma RepeatedFrameIsPrinted(p: Tx.Parts, hops: seq<Hop>, sent: seq<byte>, heard: seq<byte>)
    requires Enterable(p, hops) && |sent| == |Tx.FrameOctets(p)| + 2 && Tx.FrameOctets(p) <= sent
    requires SameButReserved(heard, sent, 14 + 7 * |Carried(hops)|)
    ensures Rx.StreamText(heard) == ExpectedLine(p, hops)
  {
    hide Rx.StreamText, ExpectedLine, Enterable, Tx.FrameOctets, Rx.InformationStart, SameButReserved, Carried;
    PrinterInvertsBuilder(p, hops, sent);
    ReservedBitsIgnored(heard, sent);
  }

  /** From the transmit form to the receive console: the levels `build` puts on the line, fed to a
      reset decoder, reach the handler once, as the frame and its check sequence, and the console
      shows the operator's line. */
  lemma FormToConsole(p: Tx.Parts, hops: seq<Hop>, lead: nat, trail: nat)
    requires Enterable(p, hops) && |Tx.FrameOctets(p)| <= 253 && lead > 0 && trail > 0
    ensures var sent := Crc16.WithFcs(Tx.FrameOctets(p));
            var rx := Ax25Rx.Run(Ax25Rx.RESET, Ax25Line.Send(Ax25Line.QUIET, Ax25Link.FrameItems(Tx.FrameOctets(p), lead, trail)).levels);
            && rx.delivered == [sent] && rx.badFcs == 0 && rx.tooShort == 0
            && Rx.StreamText(sent) == ExpectedLine(p, hops)
  {
    hide Ax25Rx.Run, Ax25Line.Send, Rx.StreamText, ExpectedLine, Enterable, Crc16.Fcs;
    Ax25Link.OneFrame(Tx.FrameOctets(p), lead, trail);
    PrinterInvertsBuilder(p, hops, Crc16.WithFcs(Tx.FrameOctets(p)));
  }
}
