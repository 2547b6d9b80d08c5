/** Airborne position frames (src/apps/ui_adsb_rx.hpp, src/apps/ui_adsb_tx.cpp, src/apps/ui_adsb_rx.cpp): how altitude
    and the two 17-bit coordinates are packed into octets and read back. The packing is stated on numbers below 256,
    with shifts and masks written as division and remainder. */
module AdsbFrame {
  import opened AdsbCpr
  import opened Bits
  import opened AdsbParity

  const MAX_BYTES: nat := 14
  const DF_ADSB: nat := 17
  const TC_AIRBORNE_POS: nat := 11

  type octet = n: nat | n < 256

  /** Integer division as C does it, towards zero. */
  function Truncated(a: int, b: int): int
    requires b > 0
  {
    if a >= 0 then a / b else -((-a) / b)
  }

  /** altitude_coded before the Q bit is put in: 25-foot steps from -1000 feet, as an unsigned word. */
  function AltitudeSteps(altitude: int): (a: nat)
    ensures a < 0x1_0000_0000
  {
    Truncated(altitude + 1000, 25) % 0x1_0000_0000
  }

  /** The steps with the Q bit in between: ((a & 0x7F0) << 1) | 0x10 | (a & 0x0F). */
  function WithQ(a: nat): nat { (a / 16 % 128) * 32 + 16 + a % 16 }

  /** The eleven octets in front of the parity field. */
  function PositionOctets(icao: nat, altitude: int, lat: nat, lon: nat, parity: nat): (r: seq<octet>)
    requires lat < 131072 && lon < 131072 && parity <= 1
    ensures |r| == 11
  {
    var coded := WithQ(AltitudeSteps(altitude));
    [DF_ADSB * 8 + 5, icao / 65536 % 256, icao / 256 % 256, icao % 256, TC_AIRBORNE_POS * 8 % 256, coded / 16 % 256,
     coded % 16 * 16 + parity * 4 + lat / 32768, lat / 128 % 256, lat % 128 * 2 + lon / 65536, lon / 256 % 256, lon % 256]
  }

  datatype Altitude = NoAltitude | Feet(value: int)

  /** The steps around the Q bit. */
  function StepsIn(a: int, b: int): int { a / 2 * 16 + b / 16 }

  function LatitudeIn(a: int, b: int, c: int): int { a % 4 * 32768 + b * 128 + c / 2 }

  function LongitudeIn(a: int, b: int, c: int): int { a % 2 * 65536 + b * 256 + c }

  /** decode_me_altitude. */
  function DecodeAltitude(f: seq<octet>): Altitude
    requires |f| >= 11
  {
    if f[5] % 2 == 1 then Feet(25 * StepsIn(f[5], f[6]) - 1000) else NoAltitude
  }

  /** The two 17-bit fields. */
  function DecodeFields(f: seq<octet>): Cpr
    requires |f| >= 11
  {
    Cpr(LatitudeIn(f[6], f[7], f[8]), LongitudeIn(f[8], f[9], f[10]))
  }

  /** get_DF. */
  function FormatIn(f: seq<octet>): nat
    requires |f| >= 11
  {
    f[0] / 8
  }

  function Joined(a: int, b: int, c: int): int { a * 65536 + b * 256 + c }

  /** get_ICAO_address. */
  function AddressIn(f: seq<octet>): nat
    requires |f| >= 11
  {
    Joined(f[1], f[2], f[3])
  }

  /** get_msg_type. */
  function TypeIn(f: seq<octet>): nat
    requires |f| >= 11
  {
    f[4] / 8
  }

  /** The receiver's test for an odd frame, octet 6 & 4. */
  predicate OddIn(f: seq<octet>)
    requires |f| >= 11
  {
    f[6] / 4 % 2 == 1
  }

  /** The header is read back: an extended squitter from the aircraft, of an airborne position, of its parity. */
  lemma HeaderBack(icao: nat, altitude: int, lat: nat, lon: nat, parity: nat)
    requires lat < 131072 && lon < 131072 && parity <= 1
    ensures var f := PositionOctets(icao, altitude, lat, lon, parity);
            && FormatIn(f) == 17 && f[0] % 8 == 5 && AddressIn(f) == icao % 0x1000000 && TypeIn(f) == 11 && f[4] % 8 == 0
            && (OddIn(f) <==> parity == 1)
  {
    hide AltitudeSteps, WithQ, Joined;
    ParityBit(WithQ(AltitudeSteps(altitude)) % 16, parity, lat / 32768);
    ThreeOctets(icao);
  }

  lemma ParityBit(h: nat, p: nat, l: nat)
    requires p <= 1 && l < 4
    ensures (h * 16 + p * 4 + l) / 4 % 2 == p
  {
    hide *;
    FieldAbove(h * 16 + p * 4 + l, 4, h * 4 + p, l);
    FieldAbove(h * 4 + p, 2, h * 2, p);
  }

  /** A field of its own above `low`. */
  lemma FieldAbove(x: nat, unit: nat, high: nat, low: nat)
    requires (unit == 2 || unit == 4 || unit == 16 || unit == 32 || unit == 64 || unit == 128)
    requires x == unit * high + low && low < unit
    ensures x / unit == high && x % unit == low
  {
    hide *;
    if unit == 2 {} else if unit == 4 {} else if unit == 16 {} else if unit == 32 {} else if unit == 64 {} else {}
  }

  lemma TwoDivisions(n: nat)
    ensures n / 65536 == n / 256 / 256
  {
    var q := n / 256;
    var r := q / 256;
    assert n == 65536 * r + (q - 256 * r) * 256 + n % 256;
  }

  lemma LowThree(s: nat, a: nat, b: nat, c: nat)
    requires a < 256 && b < 256 && c < 256
    ensures (0x1000000 * s + (a * 65536 + b * 256 + c)) % 0x1000000 == a * 65536 + b * 256 + c
  {
  }

  lemma ThreeOctets(n: nat)
    ensures Joined(n / 65536 % 256, n / 256 % 256, n % 256) == n % 0x1000000
  {
    var q := n / 256;
    var r := q / 256;
    TwoDivisions(n);
    LowThree(r / 256, r % 256, q % 256, n % 256);
  }

  /** Whatever the altitude, the coordinates are read back. */
  lemma FieldsBack(icao: nat, altitude: int, lat: nat, lon: nat, parity: nat)
    requires lat < 131072 && lon < 131072 && parity <= 1
    ensures DecodeFields(PositionOctets(icao, altitude, lat, lon, parity)) == Cpr(lat, lon)
  {
    hide AltitudeSteps, WithQ, LatitudeIn, LongitudeIn;
    var coded := WithQ(AltitudeSteps(altitude));
    LatitudeSplit(lat, 4 * (coded % 16) + parity, lon / 65536);
    LongitudeSplit(lon, lat % 128);
  }

  lemma LatitudeSplit(lat: nat, high: nat, low: nat)
    requires lat < 131072 && low <= 1
    ensures LatitudeIn(high * 4 + lat / 32768, lat / 128 % 256, lat % 128 * 2 + low) == lat
  {
  }

  lemma LongitudeSplit(lon: nat, high: nat)
    requires lon < 131072
    ensures LongitudeIn(high * 2 + lon / 65536, lon / 256 % 256, lon % 256) == lon
  {
  }

  /** The altitude read back counts the steps modulo 2048. */
  lemma AltitudeBack(icao: nat, altitude: int, lat: nat, lon: nat, parity: nat)
    requires lat < 131072 && lon < 131072 && parity <= 1
    ensures DecodeAltitude(PositionOctets(icao, altitude, lat, lon, parity)) == Feet(25 * (AltitudeSteps(altitude) % 2048) - 1000)
  {
    hide AltitudeSteps, WithQ;
    var a := AltitudeSteps(altitude);
    QBit(a);
    HighNibble(WithQ(a) % 16, parity, lat / 32768);
    EvenAndOdd(a / 16 % 128, 1);
  }

  /** In feet: whole steps from -1000 up, cut towards zero on either side of it, and around modulo 51200 feet. */
  lemma AltitudeWraps(icao: nat, altitude: int, lat: nat, lon: nat, parity: nat)
    requires lat < 131072 && lon < 131072 && parity <= 1 && -0x8000_0000 <= altitude < 0x8000_0000 - 1000
    ensures var steps := if altitude >= -1000 then (altitude + 1000) / 25 else 0 - (-1000 - altitude) / 25;
            DecodeAltitude(PositionOctets(icao, altitude, lat, lon, parity)) == Feet(25 * (steps % 2048) - 1000)
  {
    hide PositionOctets, DecodeAltitude;
    AltitudeBack(icao, altitude, lat, lon, parity);
    var steps := if altitude >= -1000 then (altitude + 1000) / 25 else 0 - (-1000 - altitude) / 25;
    assert Truncated(altitude + 1000, 25) == steps;
    WordThenSteps(steps);
  }

  lemma WordThenSteps(s: int)
    requires -0x8000_0000 <= s < 0x8000_0000
    ensures s % 0x1_0000_0000 % 2048 == s % 2048
  {
    var q := s / 2048;
    if s < 0 {
      assert s + 0x1_0000_0000 == 2048 * (q + 0x20_0000) + s % 2048;
    }
  }

  lemma HighNibble(h: nat, p: nat, l: nat)
    requires p <= 1 && l < 4
    ensures (h * 16 + p * 4 + l) / 16 == h
  {
  }

  lemma EvenAndOdd(a: nat, b: nat)
    requires b <= 1
    ensures (a * 2 + b) / 2 == a && (a * 2 + b) % 2 == b
  {
  }

  lemma QBit(a: nat)
    ensures WithQ(a) / 16 % 256 == a / 16 % 128 * 2 + 1 && WithQ(a) % 16 == a % 16
    ensures a / 16 % 128 * 16 + a % 16 == a % 2048
  {
  }

  /** The altitude comes back rounded down to its 25-foot step exactly from -1000 to 50199 feet. */
  lemma AltitudeRoundTrip(icao: nat, altitude: int, lat: nat, lon: nat, parity: nat)
    requires lat < 131072 && lon < 131072 && parity <= 1 && -0x8000_0000 <= altitude < 0x8000_0000 - 1000
    ensures var back := DecodeAltitude(PositionOctets(icao, altitude, lat, lon, parity));
            back.Feet? && (back.value <= altitude < back.value + 25 <==> -1000 <= altitude < 50200)
  {
    hide PositionOctets, DecodeAltitude;
    AltitudeBack(icao, altitude, lat, lon, parity);
  }

  // ----- octets as numbers and as bits

  /** The low `k` bits of a number, most significant first, and the number they stand for. */
  function BitsOf(n: nat, k: nat): (r: seq<bool>)
    ensures |r| == k
    decreases k
  {
    if k == 0 then [] else BitsOf(n / 2, k - 1) + [n % 2 == 1]
  }

  function NumberOf(s: seq<bool>): nat {
    if s == [] then 0 else 2 * NumberOf(s[..|s| - 1]) + if s[|s| - 1] then 1 else 0
  }

  function Power(k: nat): nat { if k == 0 then 1 else 2 * Power(k - 1) }

  lemma {:induction false} NumberBelow(s: seq<bool>)
    ensures NumberOf(s) < Power(|s|)
  {
    if s != [] {
      NumberBelow(s[..|s| - 1]);
    }
  }

  lemma EightBits()
    ensures Power(8) == 256
  {
    assert Power(2) == 4 && Power(4) == 16 && Power(6) == 64;
  }

  function AsByte(n: octet): byte { OctetOf(BitsOf(n, 8)) }

  function AsOctet(b: byte): octet {
    NumberBelow(MsbBits(b));
    EightBits();
    NumberOf(MsbBits(b))
  }

  function Bytes(f: seq<octet>): (r: seq<byte>)
    ensures |r| == |f|
  {
    seq(|f|, i requires 0 <= i < |f| => AsByte(f[i]))
  }

  function Numbers(f: seq<byte>): (r: seq<octet>)
    ensures |r| == |f|
  {
    seq(|f|, i requires 0 <= i < |f| => AsOctet(f[i]))
  }

  lemma {:induction false} NumberBack(n: nat, k: nat)
    requires n < Power(k)
    ensures NumberOf(BitsOf(n, k)) == n
    decreases k
  {
    if k > 0 {
      NumberBack(n / 2, k - 1);
    }
  }

  lemma OctetKept(n: octet)
    ensures AsOctet(AsByte(n)) == n
  {
    hide OctetOf, MsbBits, NumberOf, BitsOf;
    OctetBack(BitsOf(n, 8));
    EightBits();
    NumberBack(n, 8);
  }

  lemma NumbersOfBytes(f: seq<octet>)
    ensures Numbers(Bytes(f)) == f
  {
    hide AsByte, AsOctet;
    forall i | 0 <= i < |f|
      ensures Numbers(Bytes(f))[i] == f[i]
    {
      OctetKept(f[i]);
    }
  }

  /** The frame encode_frame_pos makes, with its parity field. */
  function PositionFrame(icao: nat, altitude: int, lat: nat, lon: nat, parity: nat): (r: seq<byte>)
    requires lat < 131072 && lon < 131072 && parity <= 1
    ensures |r| == MAX_BYTES
  {
    Protected(Bytes(PositionOctets(icao, altitude, lat, lon, parity)), ZERO)
  }

  /** It is a long frame, its syndrome is zero, and its octets are the packed ones. */
  lemma PositionFrameIsGood(icao: nat, altitude: int, lat: nat, lon: nat, parity: nat)
    requires lat < 131072 && lon < 131072 && parity <= 1
    ensures var f := PositionFrame(icao, altitude, lat, lon, parity);
            && f[0] == 0x8D && Whole(f) && IsLong(f) && Syndrome(f) == ZERO
            && Numbers(f)[..11] == PositionOctets(icao, altitude, lat, lon, parity)
  {
    hide Crc, AsByte, AsOctet, WordOctets, Plus, AltitudeSteps, WithQ;
    var o, f := PositionOctets(icao, altitude, lat, lon, parity), PositionFrame(icao, altitude, lat, lon, parity);
    FirstIsLong();
    assert o[0] == 0x8D;
    SyndromeIsOverlay(Bytes(o), ZERO);
    NumbersOfBytes(o);
    assert f[..11] == Bytes(o);
    assert Numbers(f)[..11] == Numbers(f[..11]);
  }

  lemma FirstIsLong()
    ensures AsByte(0x8D) == 0x8D && 0x8D as byte & 0x80 != 0
  {
    assert BitsOf(0x8D, 8) == [true, false, false, false, true, true, false, true];
  }

  // ----- the frame object

  class Frame {
    const raw: array<byte>
    var index: nat
    var timestamp: nat

    ghost predicate Valid()
      reads this
    {
      raw.Length == MAX_BYTES && index <= MAX_BYTES
    }

    constructor ()
      ensures Valid() && index == 0 && fresh(raw)
      ensures forall i :: 0 <= i < MAX_BYTES ==> raw[i] == 0
    {
      raw := new byte[MAX_BYTES](_ => 0);
      index, timestamp := 0, 0;
    }

    method Clear()
      requires Valid()
      modifies this, raw
      ensures Valid() && index == 0 && timestamp == old(timestamp)
      ensures forall i :: 0 <= i < MAX_BYTES ==> raw[i] == 0
    {
      index := 0;
      for i := 0 to MAX_BYTES
        invariant Valid() && index == 0 && timestamp == old(timestamp)
        invariant forall k :: 0 <= k < i ==> raw[k] == 0
      {
        raw[i] := 0;
      }
    }

    /** Appends an octet; a full frame ignores it. */
    method PushByte(b: byte)
      requires Valid()
      modifies this, raw
      ensures Valid() && timestamp == old(timestamp)
      ensures raw[..index] == if old(index) < MAX_BYTES then old(raw[..index]) + [b] else old(raw[..index])
      ensures raw[index..] == if old(index) < MAX_BYTES then old(raw[index + 1..]) else old(raw[index..])
    {
      if index >= MAX_BYTES {
        return;
      }
      raw[index] := b;
      index := index + 1;
    }

    method PushAll(bytes: seq<byte>)
      requires Valid() && index + |bytes| <= MAX_BYTES
      modifies this, raw
      ensures Valid() && timestamp == old(timestamp)
      ensures raw[..index] == old(raw[..index]) + bytes
    {
      for i := 0 to |bytes|
        invariant Valid() && timestamp == old(timestamp) && index == old(index) + i
        invariant raw[..index] == old(raw[..index]) + bytes[..i]
      {
        PushByte(bytes[i]);
        assert bytes[..i + 1] == bytes[..i] + [bytes[i]];
      }
      assert bytes[..|bytes|] == bytes;
    }

    /** make_CRC: the parity of the data goes behind it, and a frame that was shorter now ends there. */
    method MakeCrc()
      requires Valid()
      modifies this, raw
      ensures Valid() && timestamp == old(timestamp)
      ensures var n := DataLength(old(raw[..]));
              && raw[..n + 3] == Protected(old(raw[..n]), ZERO) && raw[n + 3..] == old(raw[n + 3..])
              && index == if old(index) < n + 3 then n + 3 else old(index)
      ensures Syndrome(raw[..]) == ZERO
    {
      hide Crc, WordOctets, Syndrome, Plus;
      var n := DataLength(raw[..]);
      ghost var data := raw[..n];
      var computed := ModeSCrc(raw[..n]);
      var parity := WordOctets(computed);
      raw[n], raw[n + 1], raw[n + 2] := parity[0], parity[1], parity[2];
      if index < n + 3 {
        index := n + 3;
      }
      PlusZero(computed);
      assert raw[..n + 3] == data + parity;
      SyndromeIsOverlay(data, ZERO);
      SyndromeOfFront(raw[..], n + 3);
    }

    /** check_CRC. */
    method CheckCrc() returns (syndrome: Word)
      requires Valid()
      ensures syndrome == Syndrome(raw[..])
    {
      hide Crc, Plus;
      var n := DataLength(raw[..]);
      var computed := ModeSCrc(raw[..n]);
      assert raw[..][..n] == raw[..n];
      syndrome := Plus(Three(raw[n], raw[n + 1], raw[n + 2]), computed);
    }

    method EncodePos(nl: Zones, icao: nat, altitude: int, latitude: real, longitude: real, parity: nat)
      requires Valid() && parity <= 1 && GoodZones(nl)
      modifies this, raw
      ensures Valid() && index == MAX_BYTES
      ensures var p := EncodePosition(nl, latitude, longitude, parity);
              && 0 <= p.lat < 131072 && 0 <= p.lon < 131072
              && raw[..] == PositionFrame(icao, altitude, p.lat, p.lon, parity)
    {
      hide AltitudeSteps, WithQ, Field, EncodePosition, Crc, WordOctets, Plus, AsByte, Syndrome;
      Clear();
      var p := EncodePosition(nl, latitude, longitude, parity);
      FieldsFit(nl, latitude, longitude, parity);
      var octets := PositionOctets(icao, altitude, p.lat, p.lon, parity);
      PushAll(Bytes(octets));
      assert raw[..11] == Bytes(octets);
      FirstIsLong();
      assert raw[0] == raw[..11][0] == 0x8D;
      MakeCrc();
      assert raw[..] == raw[..14];
    }
  }

  /** Octets behind the parity field do not count. */
  lemma SyndromeOfFront(f: seq<byte>, n: nat)
    requires Whole(f) && n == DataLength(f) + 3
    ensures Whole(f[..n]) && Syndrome(f) == Syndrome(f[..n])
  {
    assert f[..n][..n - 3] == f[..n - 3];
  }

  lemma FieldsFit(nl: Zones, latitude: real, longitude: real, parity: nat)
    requires parity <= 1 && GoodZones(nl)
    ensures var p := EncodePosition(nl, latitude, longitude, parity); 0 <= p.lat < 131072 && 0 <= p.lon < 131072
  {
    hide Field, Yz, Xz, DeltaLon, Rlat;
    FieldIsMod(Yz(latitude, parity));
    FieldIsMod(Xz(longitude, DeltaLon(nl, Rlat(latitude, parity), parity)));
  }
}
