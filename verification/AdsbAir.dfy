/** A position through the air: the encoder's two frames (encode_frame_pos in src/apps/ui_adsb_tx.cpp) keyed as bursts,
    demodulated and decoded by the receiver (src/apps/ui_adsb_rx.cpp). */
module AdsbAir {
  import opened Bits
  import opened AdsbCpr
  import opened AdsbFrame
  import Parity = AdsbParity
  import Demod = AdsbDemod
  import Link = AdsbLink

  /** What one transmission is made of. */
  datatype Shot = Shot(altitude: int, amplitude: real, silence: nat)

  predicate Audible(s: Shot) { s.amplitude > 0.0 && s.silence >= 16 }

  /** The frame of one parity for a position. */
  function FrameFor(nl: Zones, icao: nat, s: Shot, latitude: real, longitude: real, parity: nat): seq<byte>
    requires parity <= 1 && FieldsFitFor(nl, latitude, longitude, parity)
  {
    var p := EncodePosition(nl, latitude, longitude, parity);
    PositionFrame(icao, s.altitude, p.lat, p.lon, parity)
  }

  predicate FieldsFitFor(nl: Zones, latitude: real, longitude: real, parity: nat)
    requires parity <= 1
  {
    var p := EncodePosition(nl, latitude, longitude, parity);
    0 <= p.lat < 131072 && 0 <= p.lon < 131072
  }

  function BurstOf(f: seq<byte>, s: Shot): Link.Burst { Link.Burst(f, s.amplitude, s.silence) }

  /** A position frame is one the demodulator can take. */
  lemma FrameIsBurst(icao: nat, s: Shot, lat: nat, lon: nat, parity: nat)
    requires lat < 131072 && lon < 131072 && parity <= 1 && Audible(s)
    ensures Link.GoodBurst(BurstOf(PositionFrame(icao, s.altitude, lat, lon, parity), s))
  {
    hide PositionFrame;
    PositionFrameIsGood(icao, s.altitude, lat, lon, parity);
  }

  lemma DecodeReadsFront(f: seq<octet>)
    requires |f| >= 11
    ensures DecodeFields(f) == DecodeFields(f[..11]) && DecodeAltitude(f) == DecodeAltitude(f[..11])
    ensures FormatIn(f) == FormatIn(f[..11]) && AddressIn(f) == AddressIn(f[..11]) && TypeIn(f) == TypeIn(f[..11])
    ensures OddIn(f) == OddIn(f[..11])
  {
  }

  /** What a receiver takes a frame for: an airborne position of an aircraft, of one parity. */
  predicate IsPositionOf(f: seq<octet>, icao: nat, parity: nat) {
    |f| == 14 && FormatIn(f) == 17 && AddressIn(f) == icao % 0x1000000 && TypeIn(f) == 11 && (OddIn(f) <==> parity == 1)
  }

  /** The aircraft, the parity, the coordinates and the altitude of a received position frame are the ones it was made of. */
  lemma FrameSays(icao: nat, altitude: int, lat: nat, lon: nat, parity: nat)
    requires lat < 131072 && lon < 131072 && parity <= 1
    ensures var f := PositionFrame(icao, altitude, lat, lon, parity);
            && DecodeFields(Numbers(f)) == Cpr(lat, lon)
            && DecodeAltitude(Numbers(f)) == Feet(25 * (AltitudeSteps(altitude) % 2048) - 1000)
            && IsPositionOf(Numbers(f), icao, parity)
  {
    hide PositionFrame, PositionOctets, DecodeFields, DecodeAltitude, AltitudeSteps, Parity.Syndrome, FormatIn, AddressIn, TypeIn,
         OddIn;
    PositionFrameIsGood(icao, altitude, lat, lon, parity);
    DecodeReadsFront(Numbers(PositionFrame(icao, altitude, lat, lon, parity)));
    HeaderBack(icao, altitude, lat, lon, parity);
    FieldsBack(icao, altitude, lat, lon, parity);
    AltitudeBack(icao, altitude, lat, lon, parity);
  }

  /** One frame of a position is fit to send, passes the parity check and says where the position is. */
  lemma FrameReady(nl: Zones, icao: nat, s: Shot, latitude: real, longitude: real, parity: nat)
    requires GoodZones(nl) && parity <= 1 && Audible(s)
    ensures FieldsFitFor(nl, latitude, longitude, parity)
    ensures var f := FrameFor(nl, icao, s, latitude, longitude, parity);
            && Link.GoodBurst(BurstOf(f, s)) && Passes(f)
            && DecodeFields(Numbers(f)) == EncodePosition(nl, latitude, longitude, parity)
            && DecodeAltitude(Numbers(f)) == Feet(25 * (AltitudeSteps(s.altitude) % 2048) - 1000)
            && IsPositionOf(Numbers(f), icao, parity)
  {
    hide EncodePosition, PositionFrame, DecodeFields, DecodeAltitude, Parity.Syndrome, Link.GoodBurst, Parity.IsLong, IsPositionOf,
         AltitudeSteps;
    FieldsFit(nl, latitude, longitude, parity);
    var p := EncodePosition(nl, latitude, longitude, parity);
    PositionFrameIsGood(icao, s.altitude, p.lat, p.lon, parity);
    FrameIsBurst(icao, s, p.lat, p.lon, parity);
    FrameSays(icao, s.altitude, p.lat, p.lon, parity);
  }

  /** A frame the receiver takes: fourteen octets with a zero syndrome. */
  predicate Passes(f: seq<byte>) {
    |f| == MAX_BYTES && Parity.Syndrome(f) == Parity.ZERO
  }

  /** A fix of a position, or none where the two frames' zone counts differ. */
  ghost predicate IsFixOf(nl: Zones, fix: Fix, latitude: real, longitude: real, parity: nat)
    requires parity <= 1
  {
    var d := DeltaLat(parity) / (2.0 * CPR_MAX_VALUE);
    && (fix.NoFix? <==> nl(Rlat(latitude, 0)) != nl(Rlat(latitude, 1)))
    && (fix.Fix? ==>
          && -d <= fix.latitude - latitude <= d
          && -180.0 <= fix.longitude < 180.0
          && exists turns :: SameMeridian(fix.longitude, longitude, CprN(nl, fix.latitude, parity), turns))
  }

  /** Decoding the two encodings of a position gives a fix of it. */
  lemma FixOfPair(nl: Zones, latitude: real, longitude: real, evenIsNewer: bool)
    requires GoodZones(nl) && -90.0 <= latitude <= 90.0
    ensures IsFixOf(nl, DecodePosition(nl, EncodePosition(nl, latitude, longitude, 0), EncodePosition(nl, latitude, longitude, 1),
                                       evenIsNewer),
                    latitude, longitude, if evenIsNewer then 0 else 1)
  {
    hide EncodePosition, DecodePosition, Rlat, SameMeridian, DeltaLat, CprN;
    PositionRoundTrip(nl, latitude, longitude, EncodePosition(nl, latitude, longitude, 0),
                      EncodePosition(nl, latitude, longitude, 1), evenIsNewer);
  }

  /** Both frames of a position, sent at any amplitudes: the demodulator hands over exactly the two, both pass the
      parity check and are taken for the aircraft's, and decoding them gives the sent latitude within half a quantum and, when the zone counts agree,
      the longitude within half a quantum of its zone, modulo whole turns. */
  lemma PositionThroughTheAir(nl: Zones, icao: nat, even: Shot, odd: Shot, latitude: real, longitude: real, evenIsNewer: bool)
    requires GoodZones(nl) && -90.0 <= latitude <= 90.0 && Audible(even) && Audible(odd)
    ensures FieldsFitFor(nl, latitude, longitude, 0) && FieldsFitFor(nl, latitude, longitude, 1)
    ensures var e, o := FrameFor(nl, icao, even, latitude, longitude, 0), FrameFor(nl, icao, odd, latitude, longitude, 1);
            && Demod.Run(Demod.RESET, Link.Signal([BurstOf(e, even), BurstOf(o, odd)])).emitted
               == [(e, 4.0 * even.amplitude), (o, 4.0 * odd.amplitude)]
            && Passes(e) && Passes(o) && IsPositionOf(Numbers(e), icao, 0) && IsPositionOf(Numbers(o), icao, 1)
            && var fix := DecodePosition(nl, DecodeFields(Numbers(e)), DecodeFields(Numbers(o)), evenIsNewer);
               IsFixOf(nl, fix, latitude, longitude, if evenIsNewer then 0 else 1)
  {
    hide EncodePosition, FrameFor, Link.Signal, Demod.Run, DecodePosition, DecodeFields, Passes, Rlat, SameMeridian, DeltaLat, CprN,
         Link.GoodBurst, FieldsFitFor, IsPositionOf, DecodeAltitude, AltitudeSteps;
    FrameReady(nl, icao, even, latitude, longitude, 0);
    FrameReady(nl, icao, odd, latitude, longitude, 1);
    var e, o := FrameFor(nl, icao, even, latitude, longitude, 0), FrameFor(nl, icao, odd, latitude, longitude, 1);
    var bursts := [BurstOf(e, even), BurstOf(o, odd)];
    Link.DemodulatorInvertsWaveform(bursts);
    assert Link.Expected(bursts) == [(e, 4.0 * even.amplitude), (o, 4.0 * odd.amplitude)];
    FixOfPair(nl, latitude, longitude, evenIsNewer);
  }
}
