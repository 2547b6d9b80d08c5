/** The APRS frame builder (AprsTxFrame in src/apps/ui_aprs_tx.cpp). A std::string is a list of octets. */
module AprsTx {
  import opened Bits
  import opened Ax25Line
  import Crc16

  const SPACE: byte := 0x20
  const DASH: byte := 0x2D
  const COMMA: byte := 0x2C
  const ZERO: byte := 0x30
  const NINE: byte := 0x39
  const LOWER_A: byte := 0x61
  const LOWER_Z: byte := 0x7A

  const CONTROL_UI: byte := 0x03
  const PID_NO_LAYER_3: byte := 0xF0

  // ----- the address field

  /** A callsign cut or space-padded to six characters. */
  function Padded(call: seq<byte>): (r: seq<byte>)
    ensures |r| == 6
  {
    seq(6, i requires 0 <= i < 6 => if i < |call| then call[i] else SPACE)
  }

  function SsidOctet(ssid: byte): byte { (ssid & 0x0F) | 0x30 }

  /** Destination then source, each six characters and an SSID octet. */
  function Address(dest: seq<byte>, destSsid: byte, src: seq<byte>, srcSsid: byte): (r: seq<byte>)
    ensures |r| == 14
  {
    Padded(dest) + [SsidOctet(destSsid)] + Padded(src) + [SsidOctet(srcSsid)]
  }

  method BuildAddress(dest: seq<byte>, destSsid: byte, src: seq<byte>, srcSsid: byte) returns (address: seq<byte>)
    ensures address == Address(dest, destSsid, src, srcSsid)
  {
    address := seq(14, _ => SPACE);
    var dlen := if |dest| < 6 then |dest| else 6;
    for i := 0 to dlen
      invariant |address| == 14
      invariant forall j :: 0 <= j < 14 ==> address[j] == if j < i then dest[j] else SPACE
    {
      address := address[i := dest[i]];
    }
    var slen := if |src| < 6 then |src| else 6;
    for i := 0 to slen
      invariant |address| == 14
      invariant forall j :: 0 <= j < 14 ==>
        address[j] == if j < dlen then dest[j] else if 7 <= j < 7 + i then src[j - 7] else SPACE
    {
      address := address[7 + i := src[i]];
    }
    address := address[6 := SsidOctet(destSsid)][13 := SsidOctet(srcSsid)];
  }

  /** The address field on the air: every octet shifted left by one, the last one of the last group
      marked in its low bit. */
  function Shifted(data: seq<byte>, isLast: bool): (r: seq<byte>)
    ensures |r| == |data|
  {
    seq(|data|, i requires 0 <= i < |data| => ShiftedOctet(data[i], isLast && i == |data| - 1))
  }

  function ShiftedOctet(c: byte, mark: bool): byte {
    if mark then (c << 1) | 1 else c << 1
  }

  // ----- the digipeater path

  /** Where the run of spaces at `p` ends. */
  function SkipSpaces(s: seq<byte>, p: nat): (q: nat)
    requires p <= |s|
    ensures p <= q <= |s|
    ensures q < |s| ==> s[q] != SPACE
    decreases |s| - p
  {
    if p < |s| && s[p] == SPACE then SkipSpaces(s, p + 1) else p
  }

  function Upper(c: byte): byte {
    if LOWER_A <= c <= LOWER_Z then c - 32 else c
  }

  /** The end of the callsign at `p`: the next dash, comma or end of the path. */
  function CallEnd(s: seq<byte>, p: nat): (q: nat)
    requires p <= |s|
    ensures p <= q <= |s|
    ensures q < |s| ==> s[q] == DASH || s[q] == COMMA
    decreases |s| - p
  {
    if p < |s| && s[p] != DASH && s[p] != COMMA then CallEnd(s, p + 1) else p
  }

  /** The callsign's characters: spaces dropped, letters upper-cased, at most six. */
  function CallText(s: seq<byte>): (r: seq<byte>)
    ensures |r| <= 6
  {
    if s == [] then []
    else
      var rest, c := CallText(s[..|s| - 1]), s[|s| - 1];
      if c != SPACE && |rest| < 6 then rest + [Upper(c)] else rest
  }

  predicate IsDigit(c: byte) { ZERO <= c <= NINE }

  function DigitEnd(s: seq<byte>, p: nat): (q: nat)
    requires p <= |s|
    ensures p <= q <= |s|
    ensures forall i :: p <= i < q ==> IsDigit(s[i])
    ensures q < |s| ==> !IsDigit(s[q])
    decreases |s| - p
  {
    if p < |s| && IsDigit(s[p]) then DigitEnd(s, p + 1) else p
  }

  function DecimalValue(s: seq<byte>): nat
    requires forall c :: c in s ==> IsDigit(c)
  {
    if s == [] then 0 else 10 * DecimalValue(s[..|s| - 1]) + DigitValue(s[|s| - 1])
  }

  function DigitValue(c: byte): nat
    requires IsDigit(c)
  {
    (c - ZERO) as nat
  }

  function CommaEnd(s: seq<byte>, p: nat): (q: nat)
    requires p <= |s|
    ensures p <= q <= |s|
    ensures q < |s| ==> s[q] == COMMA
    decreases |s| - p
  {
    if p < |s| && s[p] != COMMA then CommaEnd(s, p + 1) else p
  }

  /** The seven octets of a path element, or nothing when its SSID is out of range. */
  function Group(call: seq<byte>, ssid: nat): seq<byte> {
    if ssid <= 15 then Padded(call) + [(ssid as byte) | 0x30] else []
  }

  /** Where the digits of the SSID behind a callsign ending at `q` start and end. */
  function SsidStart(s: seq<byte>, q: nat): (d: nat)
    requires q <= |s|
    ensures q <= d <= |s|
  {
    if q < |s| && s[q] == DASH then SkipSpaces(s, q + 1) else q
  }

  function SsidEnd(s: seq<byte>, q: nat): (e: nat)
    requires q <= |s|
    ensures SsidStart(s, q) <= e <= |s|
    ensures forall i :: SsidStart(s, q) <= i < e ==> IsDigit(s[i])
  {
    if q < |s| && s[q] == DASH then DigitEnd(s, SsidStart(s, q)) else q
  }

  /** The first element of the path at `p`, which is not a space, and where the next one starts. */
  function Element(s: seq<byte>, p: nat): seq<byte>
    requires p <= |s|
  {
    var q := CallEnd(s, p);
    Group(CallText(s[p..q]), DecimalValue(s[SsidStart(s, q)..SsidEnd(s, q)]))
  }

  function NextElement(s: seq<byte>, p: nat): (n: nat)
    requires p <= |s|
    ensures p <= n <= |s|
    ensures p < |s| ==> p < n
  {
    var e := SsidEnd(s, CallEnd(s, p));
    var c := CommaEnd(s, e);
    if c < |s| then c + 1 else c
  }

  /** The path from `p` on as packed seven-octet groups. */
  function Packed(s: seq<byte>, p: nat): seq<byte>
    requires p <= |s|
    decreases |s| - p
  {
    var q := SkipSpaces(s, p);
    if q == |s| then [] else Element(s, q) + Packed(s, NextElement(s, q))
  }

  /** What a C string holding `s` shows: everything in front of the first NUL. */
  function CString(s: seq<byte>): (r: seq<byte>)
    ensures 0 !in r && r <= s
    ensures 0 !in s ==> r == s
  {
    if s == [] || s[0] == 0 then [] else [s[0]] + CString(s[1..])
  }

  function FixedPath(path: seq<byte>): seq<byte> { Packed(CString(path), 0) }

  method ScanSpaces(s: seq<byte>, start: nat) returns (p: nat)
    requires start <= |s|
    ensures p == SkipSpaces(s, start)
  {
    p := start;
    while p < |s| && s[p] == SPACE
      invariant start <= p <= |s|
      invariant SkipSpaces(s, p) == SkipSpaces(s, start)
    {
      p := p + 1;
    }
  }

  method ScanCall(s: seq<byte>, start: nat) returns (call: seq<byte>, p: nat)
    requires start <= |s|
    ensures p == CallEnd(s, start) && call == CallText(s[start..p])
  {
    p, call := start, [];
    while p < |s| && s[p] != DASH && s[p] != COMMA
      invariant start <= p <= |s|
      invariant CallEnd(s, p) == CallEnd(s, start)
      invariant call == CallText(s[start..p])
    {
      assert s[start..p + 1][..p - start] == s[start..p];
      if s[p] != SPACE {
        if |call| < 6 {
          var c := Upper(s[p]);
          call := call + [c];
        }
      }
      p := p + 1;
    }
  }

  lemma DecimalPush(s: seq<byte>, from: nat, to: nat)
    requires from <= to < |s| && forall i :: from <= i <= to ==> IsDigit(s[i])
    ensures DecimalValue(s[from..to + 1]) == 10 * DecimalValue(s[from..to]) + DigitValue(s[to])
  {
    hide DigitValue, IsDigit;
    SlicePush(s, from, to);
  }

  lemma SlicePush<T>(s: seq<T>, from: nat, to: nat)
    requires from <= to < |s|
    ensures |s[from..to + 1]| == to + 1 - from
    ensures s[from..to + 1][..to - from] == s[from..to] && s[from..to + 1][to - from] == s[to]
  {
  }

  lemma NoDigits(s: seq<byte>, from: nat)
    requires from <= |s|
    ensures DecimalValue(s[from..from]) == 0
  {
  }

  method ScanSsid(s: seq<byte>, q: nat) returns (ssid: nat, p: nat)
    requires q <= |s|
    ensures p == SsidEnd(s, q) && ssid == DecimalValue(s[SsidStart(s, q)..p])
  {
    hide DigitValue, IsDigit, DecimalValue;
    p, ssid := q, 0;
    NoDigits(s, SsidStart(s, q));
    if p < |s| && s[p] == DASH {
      p := p + 1;
      p := ScanSpaces(s, p);
      while p < |s| && IsDigit(s[p])
        invariant SsidStart(s, q) <= p <= |s|
        invariant DigitEnd(s, p) == SsidEnd(s, q)
        invariant forall i :: SsidStart(s, q) <= i < p ==> IsDigit(s[i])
        invariant ssid == DecimalValue(s[SsidStart(s, q)..p])
      {
        DecimalPush(s, SsidStart(s, q), p);
        ssid := ssid * 10 + DigitValue(s[p]);
        p := p + 1;
      }
    }
  }

  method ScanComma(s: seq<byte>, start: nat) returns (p: nat)
    requires start <= |s|
    ensures p == CommaEnd(s, start)
  {
    p := start;
    while p < |s| && s[p] != COMMA
      invariant start <= p <= |s|
      invariant CommaEnd(s, p) == CommaEnd(s, start)
    {
      p := p + 1;
    }
  }

  /** One path element: callsign, SSID, and on behind the next comma. */
  method FixElement(s: seq<byte>, start: nat) returns (group: seq<byte>, p: nat)
    requires start <= |s|
    ensures group == Element(s, start) && p == NextElement(s, start)
  {
    hide CallEnd, CallText, DecimalValue, CommaEnd, SsidStart, SsidEnd, Padded;
    var call, ssid;
    call, p := ScanCall(s, start);
    ssid, p := ScanSsid(s, p);
    group := [];
    if ssid <= 15 {
      group := Padded(call) + [(ssid as byte) | 0x30];
    }
    p := ScanComma(s, p);
    if p < |s| {
      p := p + 1;
    }
  }

  method FixPath(path: seq<byte>) returns (fixed: seq<byte>)
    ensures fixed == FixedPath(path)
  {
    hide SkipSpaces, Element, NextElement, CString;
    var s := CString(path);
    var p := 0;
    fixed := [];
    while p < |s|
      invariant p <= |s|
      invariant fixed + Packed(s, p) == Packed(s, 0)
    {
      ghost var start := p;
      p := ScanSpaces(s, p);
      if p == |s| {
        break;
      }
      ghost var before, first := fixed, p;
      var group;
      group, p := FixElement(s, p);
      fixed := fixed + group;
      Associative(before, Element(s, first), Packed(s, p));
    }
    assert SkipSpaces(s, |s|) == |s|;
    assert fixed + [] == fixed;
  }

  // ----- the frame

  /** A whole number of address groups, at most nine. */
  predicate UsablePath(fixed: seq<byte>) {
    fixed != [] && |fixed| <= 63 && |fixed| % 7 == 0
  }

  /** What a frame is made of. */
  datatype Parts = Parts(src: seq<byte>, srcSsid: byte, dest: seq<byte>, destSsid: byte,
                         payload: seq<byte>, path: seq<byte>)

  /** The octets the check sequence covers. */
  function FrameOctets(p: Parts): seq<byte> {
    var address := Address(p.dest, p.destSsid, p.src, p.srcSsid);
    var fixed := FixedPath(p.path);
    Shifted(address, !UsablePath(fixed)) + (if UsablePath(fixed) then Shifted(fixed, true) else []) +
    [CONTROL_UI, PID_NO_LAYER_3] + p.payload
  }

  class AprsTxFrame {
    var bits: seq<bool>
    var frameBytes: seq<byte>
    const crc: Crc16.Engine
    var fcs: bv16
    var level: bool
    var ones: nat
    /** The octets emitted since the last reset. */
    ghost var items: seq<Item>

    ghost predicate Valid()
      reads this, crc
    {
      && Line(bits, level, ones) == Send(QUIET, items)
      && crc.remainder == Crc16.Run(Crc16.INITIAL, AllLsbBits(frameBytes))
    }

    constructor ()
      ensures Valid() && items == [] && fresh(crc)
    {
      bits, frameBytes, fcs, level, ones, items := [], [], 0, false, 0, [];
      crc := new Crc16.Engine();
    }

    method Reset()
      modifies this, crc
      ensures Valid() && items == [] && frameBytes == []
    {
      bits, frameBytes, fcs, level, ones, items := [], [], 0, false, 0, [];
      crc.Reset();
    }

    method NrziEmit(bit: bool)
      modifies this
      ensures Line(bits, level, ones) == Emit(old(Line(bits, level, ones)), bit)
      ensures frameBytes == old(frameBytes) && items == old(items) && fcs == old(fcs)
    {
      if !bit {
        level := !level;
      }
      bits := bits + [level];
    }

    method AddByte(octet: byte, isFlag: bool, isData: bool)
      requires Valid() && (isFlag ==> octet == FLAG_OCTET && !isData)
      modifies this, crc
      ensures Valid()
      ensures items == old(items) + [if isFlag then Flag else Data(octet)]
      ensures frameBytes == if isData then old(frameBytes) + [octet] else old(frameBytes)
      ensures fcs == old(fcs)
    {
      hide Crc16.Run, PushBits, Send, Push;
      if isData {
        crc.ProcessByte(octet);
        Crc16.RunAppend(Crc16.INITIAL, AllLsbBits(frameBytes), LsbBits(octet));
        assert (frameBytes + [octet])[..|frameBytes|] == frameBytes;
        frameBytes := frameBytes + [octet];
      }
      ghost var before := Line(bits, level, ones);
      var item := if isFlag then Flag else Data(octet);
      SendPush(QUIET, items, item);
      PushIsOctet(before, octet, isFlag);
      EmitOctet(octet, isFlag);
      items := items + [item];
    }

    /** The loop of add_byte, least significant bit first. */
    method EmitOctet(octet: byte, isFlag: bool)
      modifies this
      ensures Line(bits, level, ones) == PushBits(old(Line(bits, level, ones)), LsbBits(octet), 8, isFlag)
      ensures frameBytes == old(frameBytes) && items == old(items) && fcs == old(fcs)
    {
      hide PushBit;
      var wire := LsbBits(octet);
      for i := 0 to 8
        invariant Line(bits, level, ones) == PushBits(old(Line(bits, level, ones)), wire, i, isFlag)
        invariant frameBytes == old(frameBytes) && items == old(items) && fcs == old(fcs)
      {
        AddBit(wire[i], isFlag);
      }
    }

    /** The loop body of add_byte: one bit, and a stuffed zero behind the fifth one of a run. */
    method AddBit(bit: bool, isFlag: bool)
      modifies this
      ensures Line(bits, level, ones) == PushBit(old(Line(bits, level, ones)), bit, isFlag)
      ensures frameBytes == old(frameBytes) && items == old(items) && fcs == old(fcs)
    {
      NrziEmit(bit);
      if bit {
        ones := ones + 1;
        if ones == 5 && !isFlag {
          NrziEmit(false);
          ones := 0;
        }
      } else {
        ones := 0;
      }
    }

    method AddFlags(n: nat)
      requires Valid()
      modifies this, crc
      ensures Valid() && items == old(items) + Flags(n)
      ensures frameBytes == old(frameBytes) && fcs == old(fcs)
    {
      for i := 0 to n
        invariant Valid() && items == old(items) + Flags(i)
        invariant frameBytes == old(frameBytes) && fcs == old(fcs)
      {
        AddByte(FLAG_OCTET, true, false);
      }
    }

    method AddData(data: seq<byte>)
      requires Valid()
      modifies this, crc
      ensures Valid() && items == old(items) + Octets(data)
      ensures frameBytes == old(frameBytes) + data && fcs == old(fcs)
    {
      hide Crc16.Run, Send, AllLsbBits, Octets;
      OctetsOfNothing();
      for i := 0 to |data|
        invariant Valid() && items == old(items) + Octets(data[..i])
        invariant frameBytes == old(frameBytes) + data[..i] && fcs == old(fcs)
      {
        AddByte(data[i], false, true);
        assert data[..i + 1] == data[..i] + [data[i]];
        OctetsPush(data[..i], data[i]);
      }
      assert data[..|data|] == data;
    }

    method MakeExtendedField(data: seq<byte>, isLast: bool)
      requires Valid()
      modifies this, crc
      ensures Valid() && items == old(items) + Octets(Shifted(data, isLast))
      ensures frameBytes == old(frameBytes) + Shifted(data, isLast) && fcs == old(fcs)
    {
      hide ShiftedOctet, Crc16.Run, Send, AllLsbBits, Octets;
      ghost var want := Shifted(data, isLast);
      if |data| == 0 {
        OctetsOfNothing();
        assert old(items) + Octets(want) == old(items);
        assert old(frameBytes) + want == old(frameBytes);
        return;
      }
      var i := 0;
      OctetsOfNothing();
      while i < |data| - 1
        invariant 0 <= i <= |data| - 1
        invariant Valid() && items == old(items) + Octets(want[..i])
        invariant frameBytes == old(frameBytes) + want[..i] && fcs == old(fcs)
      {
        var octet := ShiftedOctet(data[i], false);
        AddByte(octet, false, true);
        assert want[..i + 1] == want[..i] + [octet];
        OctetsPush(want[..i], octet);
        i := i + 1;
      }
      var octet := ShiftedOctet(data[i], isLast);
      AddByte(octet, false, true);
      assert want == want[..i] + [octet];
      OctetsPush(want[..i], octet);
    }

    method AddChecksum()
      requires Valid()
      modifies this, crc
      ensures Valid() && items == old(items) + Octets([Crc16.LowByte(fcs), Crc16.HighByte(fcs)])
      ensures frameBytes == old(frameBytes) && fcs == Crc16.Fcs(frameBytes)
    {
      hide Crc16.Run, Crc16.Reflect, Crc16.LowByte, Crc16.HighByte, Send, AllLsbBits;
      fcs := crc.Checksum();
      AddByte(Crc16.LowByte(fcs), false, false);
      AddByte(Crc16.HighByte(fcs), false, false);
    }

    method Build(p: Parts, leadFlags: nat, trailFlags: nat)
      modifies this, crc
      ensures Valid()
      ensures frameBytes == FrameOctets(p) && fcs == Crc16.Fcs(frameBytes)
      ensures bits == Send(QUIET, Flags(leadFlags) + Octets(Crc16.WithFcs(FrameOctets(p))) + Flags(trailFlags)).levels
    {
      hide Crc16.Fcs, Crc16.Run, FixedPath, Send, Shifted, Address, Octets, Flags, FrameOctets, AllLsbBits,
           Crc16.Reflect, Crc16.LowByte, Crc16.HighByte;
      Reset();
      var address := BuildAddress(p.dest, p.destSsid, p.src, p.srcSsid);
      var fixed := FixPath(p.path);
      var hasPath := fixed != [] && |fixed| <= 63 && |fixed| % 7 == 0;

      ghost var a := Shifted(address, !hasPath);
      ghost var b := if hasPath then Shifted(fixed, true) else [];
      AddFlags(leadFlags);
      MakeExtendedField(address, !hasPath);
      if hasPath {
        MakeExtendedField(fixed, true);
      } else {
        OctetsOfNothing();
      }
      assert items == Flags(leadFlags) + Octets(a) + Octets(b) && frameBytes == a + b;
      AddData([CONTROL_UI]);
      AddData([PID_NO_LAYER_3]);
      AddData(p.payload);
      AddChecksum();
      AddFlags(trailFlags);
      FrameOfPieces(p, a, b, fcs, leadFlags, trailFlags, frameBytes, items);
    }
  }

  /** The pieces in the order the builder emits them make up the frame and its items. */
  lemma FrameOfPieces(p: Parts, a: seq<byte>, b: seq<byte>, fcs: bv16, lead: nat, trail: nat,
                      frame: seq<byte>, items: seq<Item>)
    requires var fixed := FixedPath(p.path);
             && a == Shifted(Address(p.dest, p.destSsid, p.src, p.srcSsid), !UsablePath(fixed))
             && b == if UsablePath(fixed) then Shifted(fixed, true) else []
    requires frame == a + b + [CONTROL_UI] + [PID_NO_LAYER_3] + p.payload && fcs == Crc16.Fcs(frame)
    requires items == Flags(lead) + Octets(a) + Octets(b) + Octets([CONTROL_UI]) + Octets([PID_NO_LAYER_3]) +
                      Octets(p.payload) + Octets([Crc16.LowByte(fcs), Crc16.HighByte(fcs)]) + Flags(trail)
    ensures frame == FrameOctets(p)
    ensures items == Flags(lead) + Octets(Crc16.WithFcs(FrameOctets(p))) + Flags(trail)
  {
    hide Crc16.Fcs, FixedPath, Shifted, Address, Octets, Flags;
    assert a + b + [CONTROL_UI, PID_NO_LAYER_3] == a + b + [CONTROL_UI] + [PID_NO_LAYER_3];
    var check := [Crc16.LowByte(fcs), Crc16.HighByte(fcs)];
    OctetsAppend(a, b);
    OctetsAppend(a + b, [CONTROL_UI]);
    OctetsAppend(a + b + [CONTROL_UI], [PID_NO_LAYER_3]);
    OctetsAppend(a + b + [CONTROL_UI] + [PID_NO_LAYER_3], p.payload);
    OctetsAppend(a + b + [CONTROL_UI] + [PID_NO_LAYER_3] + p.payload, check);
    FlattenItems(Flags(lead), Octets(a), Octets(b), Octets([CONTROL_UI]), Octets([PID_NO_LAYER_3]),
                 Octets(p.payload), Octets(check), Flags(trail));
  }

  lemma Associative<T>(a: seq<T>, b: seq<T>, c: seq<T>)
    ensures a + (b + c) == (a + b) + c
  {
  }

  lemma FlattenItems(lead: seq<Item>, a: seq<Item>, b: seq<Item>, c: seq<Item>, d: seq<Item>,
                     e: seq<Item>, f: seq<Item>, trail: seq<Item>)
    ensures lead + a + b + c + d + e + f + trail == lead + (a + b + c + d + e + f) + trail
  {
  }

  lemma PushIsOctet(l: Line, octet: byte, isFlag: bool)
    requires isFlag ==> octet == FLAG_OCTET
    ensures Push(l, if isFlag then Flag else Data(octet)) == PushBits(l, LsbBits(octet), 8, isFlag)
  {
    hide PushBits;
  }

  lemma OctetsOfNothing()
    ensures Octets([]) == []
  {
  }

  lemma OctetsPush(data: seq<byte>, octet: byte)
    ensures Octets(data + [octet]) == Octets(data) + [Data(octet)]
  {
  }

  lemma OctetsAppend(a: seq<byte>, b: seq<byte>)
    ensures Octets(a + b) == Octets(a) + Octets(b)
  {
  }
}
