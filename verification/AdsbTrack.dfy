/** The aircraft a receiver keeps (AircraftTracker::handle_frame, AircraftRecentEntry::set_frame_pos, decode_frame_pos and
    decode_ac13_altitude in src/apps/ui_adsb_rx.cpp): where a received frame is credited, and what becomes of a pair of
    position frames. */
module AdsbTrack {
  import opened Bits
  import opened AdsbCpr
  import opened AdsbFrame
  import Parity = AdsbParity
  import Air = AdsbAir

  /** A stored position frame and the second it came in. */
  datatype Slot = Empty | Held(frame: seq<octet>, time: nat)

  datatype Place = Place(altitude: Altitude, fix: Fix)

  /** What an entry keeps of an aircraft's position. */
  datatype Track = Track(even: Slot, odd: Slot, place: Place)

  const NEW_TRACK := Track(Empty, Empty, Place(NoAltitude, NoFix))

  const O_E_FRAME_TIMEOUT: nat := 20

  type Tracks = map<nat, Track>

  // ----- position frames

  /** decode_frame_pos: of two frames of one second the odd one counts as the newer. */
  function DecodeFramePos(nl: Zones, even: Slot, odd: Slot): Place
    requires even.Held? && odd.Held? && |even.frame| >= 11 && |odd.frame| >= 11
  {
    var evenIsNewer := even.time > odd.time;
    Place(DecodeAltitude(if evenIsNewer then even.frame else odd.frame),
          DecodePosition(nl, DecodeFields(even.frame), DecodeFields(odd.frame), evenIsNewer))
  }

  predicate GoodSlot(s: Slot) { s.Held? ==> |s.frame| == MAX_BYTES }

  predicate GoodTrack(t: Track) { GoodSlot(t.even) && GoodSlot(t.odd) }

  predicate Close(a: nat, b: nat) { (if a < b then b - a else a - b) < O_E_FRAME_TIMEOUT }

  /** set_frame_pos. */
  function WithFrame(nl: Zones, t: Track, f: seq<octet>, time: nat, odd: bool): (r: Track)
    requires GoodTrack(t) && |f| == MAX_BYTES
    ensures GoodTrack(r)
  {
    var u := if odd then t.(odd := Held(f, time)) else t.(even := Held(f, time));
    if u.even.Held? && u.odd.Held? && Close(u.even.time, u.odd.time) then u.(place := DecodeFramePos(nl, u.even, u.odd)) else u
  }

  // ----- surveillance altitudes

  /** The step count in two octets, around the metric bit and the Q bit. */
  function Ac13Steps(a: int, b: int): int { a % 32 * 64 + b / 128 * 32 + b / 32 % 2 * 16 + b % 16 }

  /** decode_ac13_altitude. */
  function DecodeAc13(f: seq<octet>): Altitude
    requires |f| >= 4
  {
    if f[3] / 64 % 2 == 1 || f[3] / 16 % 2 == 0 then NoAltitude else Feet(25 * Ac13Steps(f[2], f[3]) - 1000)
  }

  /** Every count of steps is read back from where its bits go, whatever the bits in front of the field, and none is where
      the count is metric or Gillham's. */
  lemma Ac13Back(f: seq<octet>, front: nat, high: nat, a: nat, metric: nat, b: nat, q: nat, low: nat)
    requires |f| >= 4 && front < 8 && high < 32 && a <= 1 && metric <= 1 && b <= 1 && q <= 1 && low < 16
    requires f[2] == front * 32 + high && f[3] == a * 128 + metric * 64 + b * 32 + q * 16 + low
    ensures DecodeAc13(f) == if metric == 0 && q == 1 then Feet(25 * (64 * high + 32 * a + 16 * b + low) - 1000) else NoAltitude
  {
    hide *;
    PartsOfField(f[2], f[3], front, high, a, metric, b, q, low);
    FieldsDecide(f);
  }

  lemma FieldsDecide(f: seq<octet>)
    requires |f| >= 4
    ensures var x: int, y: int := f[2], f[3];
            DecodeAc13(f) == if y / 64 % 2 == 1 || y / 16 % 2 == 0 then NoAltitude
                             else Feet(25 * (x % 32 * 64 + y / 128 * 32 + y / 32 % 2 * 16 + y % 16) - 1000)
  {
  }

  lemma PartsOfField(x: nat, y: nat, front: nat, high: nat, a: nat, metric: nat, b: nat, q: nat, low: nat)
    requires high < 32 && a <= 1 && metric <= 1 && b <= 1 && q <= 1 && low < 16
    requires x == front * 32 + high && y == a * 128 + metric * 64 + b * 32 + q * 16 + low
    ensures x % 32 == high && y / 128 == a && y / 64 % 2 == metric && y / 32 % 2 == b && y / 16 % 2 == q && y % 16 == low
  {
    hide *;
    FieldAbove(x, 32, front, high);
    FieldAbove(y, 128, a, metric * 64 + b * 32 + q * 16 + low);
    FieldAbove(y, 64, a * 2 + metric, b * 32 + q * 16 + low);
    FieldAbove(a * 2 + metric, 2, a, metric);
    FieldAbove(y, 32, a * 4 + metric * 2 + b, q * 16 + low);
    FieldAbove(a * 4 + metric * 2 + b, 2, a * 2 + metric, b);
    FieldAbove(y, 16, a * 8 + metric * 4 + b * 2 + q, low);
    FieldAbove(a * 8 + metric * 4 + b * 2 + q, 2, a * 4 + metric * 2 + b, q);
  }

  function WithAltitude(t: Track, a: Altitude): Track {
    if a.Feet? then t.(place := t.place.(altitude := a)) else t
  }

  // ----- the tracker

  predicate IsAirbornePosition(t: nat) { 9 <= t <= 18 || 20 <= t <= 22 }

  /** An aircraft's entry behind one of its frames. */
  function Updated(nl: Zones, t: Track, f: seq<octet>, time: nat): (r: Track)
    requires GoodTrack(t) && |f| == MAX_BYTES
    ensures GoodTrack(r)
  {
    var df := FormatIn(f);
    if df == 17 && TypeIn(f) == 0 then WithAltitude(t, DecodeAltitude(f))
    else if df == 17 && IsAirbornePosition(TypeIn(f)) then WithFrame(nl, t, f, time, OddIn(f))
    else if df == 0 || df == 4 || df == 20 then WithAltitude(t, DecodeAc13(f))
    else t
  }

  datatype Credit = Refused | To(address: nat)

  /** Whose frame it is: one without a syndrome names its aircraft, one with a known aircraft's address for a syndrome is
      that aircraft's, and any other is refused. */
  function Credited(tracks: Tracks, f: seq<byte>): Credit
    requires |f| == MAX_BYTES
  {
    var s := Parity.Syndrome(f);
    if s != Parity.ZERO then
      var address := NumberOf(WordBits(s));
      if address in tracks then To(address) else Refused
    else if AddressIn(Numbers(f)) == 0 then Refused
    else To(AddressIn(Numbers(f)))
  }

  /** The 24 bits of a syndrome, most significant first. */
  function WordBits(w: Parity.Word): seq<bool> {
    var o := Parity.WordOctets(w);
    MsbBits(o[0]) + MsbBits(o[1]) + MsbBits(o[2])
  }

  ghost predicate GoodTracks(tracks: Tracks) { forall a :: a in tracks ==> GoodTrack(tracks[a]) }

  /** handle_frame. */
  function Handled(nl: Zones, tracks: Tracks, f: seq<byte>, time: nat): Tracks
    requires GoodTracks(tracks) && |f| == MAX_BYTES
  {
    match Credited(tracks, f)
    case Refused => tracks
    case To(a) => tracks[a := Updated(nl, if a in tracks then tracks[a] else NEW_TRACK, Numbers(f), time)]
  }

  class AircraftTracker {
    var recent: Tracks
    var framesSeen: nat
    var framesAccepted: nat

    ghost predicate Valid()
      reads this
    {
      GoodTracks(recent) && framesAccepted <= framesSeen
    }

    constructor ()
      ensures Valid() && recent == map[] && framesSeen == 0
    {
      recent, framesSeen, framesAccepted := map[], 0, 0;
    }

    method HandleFrame(nl: Zones, f: seq<byte>, time: nat) returns (accepted: bool)
      requires Valid() && |f| == MAX_BYTES
      modifies this
      ensures Valid()
      ensures accepted == Credited(old(recent), f).To?
      ensures recent == Handled(nl, old(recent), f, time)
      ensures framesSeen == old(framesSeen) + 1
      ensures framesAccepted == old(framesAccepted) + if accepted then 1 else 0
    {
      hide Updated, Parity.Syndrome, NumberOf, WordBits, Numbers, AddressIn;
      framesSeen := framesSeen + 1;
      var address;
      var crc := Parity.Syndrome(f);
      if crc != Parity.ZERO {
        address := NumberOf(WordBits(crc));
        if address !in recent {
          return false;
        }
      } else {
        address := AddressIn(Numbers(f));
        if address == 0 {
          return false;
        }
      }
      framesAccepted := framesAccepted + 1;
      var entry := if address in recent then recent[address] else NEW_TRACK;
      recent := recent[address := Updated(nl, entry, Numbers(f), time)];
      return true;
    }
  }

  // ----- a position pair at the tracker

  /** A position frame goes to its aircraft and to no other. */
  lemma PositionIsCredited(nl: Zones, tracks: Tracks, f: seq<byte>, icao: nat, parity: nat, time: nat)
    requires GoodTracks(tracks) && Air.Passes(f) && Air.IsPositionOf(Numbers(f), icao, parity) && 0 < icao < 0x1000000
    ensures var t := if icao in tracks then tracks[icao] else NEW_TRACK;
            && GoodTrack(t) && Handled(nl, tracks, f, time) == tracks[icao := WithFrame(nl, t, Numbers(f), time, parity == 1)]
  {
    hide Parity.Syndrome, Numbers, WithFrame, GoodTrack, NumberOf, WordBits;
    NewIsGood();
  }

  /** Of the messages of an aircraft with a good parity, types 9 to 18 and 20 to 22 are position frames; the others but type 0
      leave its position alone, and open an entry for it if it has none. */
  lemma TypeDecides(nl: Zones, tracks: Tracks, f: seq<byte>, icao: nat, time: nat)
    requires |f| == MAX_BYTES && GoodTracks(tracks) && Parity.Syndrome(f) == Parity.ZERO
    requires FormatIn(Numbers(f)) == 17 && AddressIn(Numbers(f)) == icao && icao > 0 && TypeIn(Numbers(f)) != 0
    ensures var t := if icao in tracks then tracks[icao] else NEW_TRACK;
            && GoodTrack(t)
            && Handled(nl, tracks, f, time) ==
               tracks[icao := if TypeIn(Numbers(f)) in {9, 10, 11, 12, 13, 14, 15, 16, 17, 18, 20, 21, 22}
                              then WithFrame(nl, t, Numbers(f), time, OddIn(Numbers(f))) else t]
  {
    hide Parity.Syndrome, Numbers, AddressIn, FormatIn, TypeIn, OddIn, WithFrame, GoodTrack;
    NewIsGood();
  }

  lemma NewIsGood()
    ensures GoodTrack(NEW_TRACK)
  {
  }

  /** Any two frames of one aircraft's position, one of each parity, in either order and with any entries before them: when
      they are less than twenty seconds apart the entry holds the fix of the pair and the newer frame's altitude, and when
      they are not, the second changes no place. No other aircraft's entry is touched. */
  lemma PositionIsTracked(nl: Zones, icao: nat, even: Air.Shot, odd: Air.Shot, latitude: real, longitude: real, tracks: Tracks,
                          evenTime: nat, oddTime: nat, oddFirst: bool)
    requires GoodZones(nl) && -90.0 <= latitude <= 90.0 && Air.Audible(even) && Air.Audible(odd)
    requires GoodTracks(tracks) && 0 < icao < 0x1000000
    ensures Air.FieldsFitFor(nl, latitude, longitude, 0) && Air.FieldsFitFor(nl, latitude, longitude, 1)
    ensures var e, o := Air.FrameFor(nl, icao, even, latitude, longitude, 0), Air.FrameFor(nl, icao, odd, latitude, longitude, 1);
            var once := if oddFirst then Handled(nl, tracks, o, oddTime) else Handled(nl, tracks, e, evenTime);
            && GoodTracks(once)
            && var twice := if oddFirst then Handled(nl, once, e, evenTime) else Handled(nl, once, o, oddTime);
            && icao in once && icao in twice
            && (forall a :: a != icao ==> (a in twice <==> a in tracks) && (a in tracks ==> twice[a] == tracks[a]))
            && if -20 < evenTime - oddTime < 20 then
                 var newer := if evenTime > oddTime then even else odd;
                 && twice[icao].place.altitude == Feet(25 * (AltitudeSteps(newer.altitude) % 2048) - 1000)
                 && Air.IsFixOf(nl, twice[icao].place.fix, latitude, longitude, if evenTime > oddTime then 0 else 1)
               else twice[icao].place == once[icao].place
  {
    hide EncodePosition, Air.FrameFor, DecodePosition, DecodeFields, Air.Passes, Rlat, SameMeridian, DeltaLat, CprN, DecodeAltitude,
         Air.Link.GoodBurst, Air.FieldsFitFor, Air.IsPositionOf, AltitudeSteps, Handled, Numbers, Air.IsFixOf;
    Air.FrameReady(nl, icao, even, latitude, longitude, 0);
    Air.FrameReady(nl, icao, odd, latitude, longitude, 1);
    Air.FixOfPair(nl, latitude, longitude, evenTime > oddTime);
    var e, o := Air.FrameFor(nl, icao, even, latitude, longitude, 0), Air.FrameFor(nl, icao, odd, latitude, longitude, 1);
    if oddFirst {
      PositionIsCredited(nl, tracks, o, icao, 1, oddTime);
      PositionIsCredited(nl, Handled(nl, tracks, o, oddTime), e, icao, 0, evenTime);
    } else {
      PositionIsCredited(nl, tracks, e, icao, 0, evenTime);
      PositionIsCredited(nl, Handled(nl, tracks, e, evenTime), o, icao, 1, oddTime);
    }
  }

  // ----- replies with the address on the parity

  lemma {:induction false} NumberJoins(s: seq<bool>, t: seq<bool>)
    ensures NumberOf(s + t) == NumberOf(s) * Power(|t|) + NumberOf(t)
    decreases |t|
  {
    if t == [] {
      assert s + t == s;
    } else {
      hide NumberOf;
      var n := |t| - 1;
      assert (s + t)[..|s| + n] == s + t[..n];
      NumberJoins(s, t[..n]);
      NumberStep(s + t);
      NumberStep(t);
      DoublesBoth(NumberOf(s), Power(n), Power(n + 1));
    }
  }

  lemma NumberStep(s: seq<bool>)
    requires s != []
    ensures NumberOf(s) == 2 * NumberOf(s[..|s| - 1]) + if s[|s| - 1] then 1 else 0
  {
  }

  lemma DoublesBoth(a: nat, p: nat, q: nat)
    requires q == 2 * p
    ensures a * q == 2 * (a * p)
  {
  }

  lemma AddressInWord(w: Parity.Word, a: byte, b: byte, c: byte)
    requires Parity.WordOctets(w) == [a, b, c]
    ensures NumberOf(WordBits(w)) == AsOctet(a) * 65536 + AsOctet(b) * 256 + AsOctet(c)
  {
    hide NumberOf, MsbBits, Parity.WordOctets, Power;
    EightBits();
    NumberJoins(MsbBits(a), MsbBits(b));
    NumberJoins(MsbBits(a) + MsbBits(b), MsbBits(c));
  }

  /** A reply that carries an aircraft's address over its parity goes to that aircraft, if it is known, and changes nothing
      otherwise. */
  lemma ReplyIsCredited(tracks: Tracks, f: seq<byte>, data: seq<byte>, w: Parity.Word, a: byte, b: byte, c: byte)
    requires |f| == MAX_BYTES && data != [] && |data| == Parity.DataLength(data) && Parity.Protected(data, w) <= f
    requires w != Parity.ZERO && Parity.WordOctets(w) == [a, b, c]
    ensures var icao := AsOctet(a) * 65536 + AsOctet(b) * 256 + AsOctet(c);
            Credited(tracks, f) == if icao in tracks then To(icao) else Refused
  {
    hide NumberOf, WordBits, Parity.Crc, Parity.WordOctets, Parity.Plus, Numbers, AddressIn, Parity.Three, AsOctet;
    AddressInWord(w, a, b, c);
    Parity.SyndromeIsOverlay(data, w);
    var n := |data| + 3;
    assert f[..n] == Parity.Protected(data, w);
    assert f[0] == data[0];
    SyndromeOfFront(f, n);
  }

  /** What is left of a track when only its altitude is news. */
  predicate OnlyAltitude(before: Track, after: Track, altitude: Altitude) {
    && after.even == before.even && after.odd == before.odd && after.place.fix == before.place.fix
    && after.place.altitude == (if altitude.Feet? then altitude else before.place.altitude)
  }

  /** An altitude reply (formats 0, 4 and 20) sets the altitude of the aircraft whose address lies over its parity to 25 feet
      a step below the metric and the Q bit, keeps the old one when the count is metric or Gillham's, and touches nothing
      else: no fix, no stored frame, no other aircraft. */
  lemma ReplyIsTracked(nl: Zones, tracks: Tracks, f: seq<byte>, data: seq<byte>, w: Parity.Word, a: byte, b: byte, c: byte,
                       time: nat, front: nat, high: nat, upper: nat, metric: nat, lower: nat, q: nat, low: nat)
    requires |f| == MAX_BYTES && data != [] && |data| == Parity.DataLength(data) && Parity.Protected(data, w) <= f
    requires w != Parity.ZERO && Parity.WordOctets(w) == [a, b, c] && GoodTracks(tracks)
    requires AsOctet(f[0]) / 8 == 0 || AsOctet(f[0]) / 8 == 4 || AsOctet(f[0]) / 8 == 20
    requires front < 8 && high < 32 && upper <= 1 && metric <= 1 && lower <= 1 && q <= 1 && low < 16
    requires AsOctet(f[2]) == front * 32 + high
    requires AsOctet(f[3]) == upper * 128 + metric * 64 + lower * 32 + q * 16 + low
    ensures var icao := AsOctet(a) * 65536 + AsOctet(b) * 256 + AsOctet(c);
            var after := Handled(nl, tracks, f, time);
            && after.Keys == tracks.Keys
            && (forall other :: other in tracks && other != icao ==> after[other] == tracks[other])
            && (icao in tracks ==>
                  OnlyAltitude(tracks[icao], after[icao],
                               if metric == 0 && q == 1 then Feet(25 * (64 * high + 32 * upper + 16 * lower + low) - 1000)
                               else NoAltitude))
  {
    hide Credited, Parity.Protected, AsOctet, DecodeAc13, Parity.DataLength, Updated, OnlyAltitude, GoodTrack, Parity.WordOctets;
    ReplyIsCredited(tracks, f, data, w, a, b, c);
    Ac13Back(Numbers(f), front, high, upper, metric, lower, q, low);
    var icao := AsOctet(a) * 65536 + AsOctet(b) * 256 + AsOctet(c);
    if icao in tracks {
      FormatOf(f);
      AltitudeReply(nl, tracks[icao], Numbers(f), time);
    }
  }

  lemma FormatOf(f: seq<byte>)
    requires |f| == MAX_BYTES
    ensures FormatIn(Numbers(f)) == AsOctet(f[0]) / 8
  {
    hide AsOctet;
  }

  lemma AltitudeReply(nl: Zones, t: Track, f: seq<octet>, time: nat)
    requires GoodTrack(t) && |f| == MAX_BYTES && (FormatIn(f) == 0 || FormatIn(f) == 4 || FormatIn(f) == 20)
    ensures OnlyAltitude(t, Updated(nl, t, f, time), DecodeAc13(f))
  {
    hide FormatIn, DecodeAc13, WithFrame, DecodeAltitude, TypeIn, OddIn;
  }

  /** A position message of type 0 has an altitude and no coordinates: the altitude alone is news. */
  lemma BareAltitudeIsTracked(nl: Zones, tracks: Tracks, f: seq<byte>, icao: nat, time: nat)
    requires |f| == MAX_BYTES && GoodTracks(tracks) && Parity.Syndrome(f) == Parity.ZERO
    requires FormatIn(Numbers(f)) == 17 && TypeIn(Numbers(f)) == 0 && AddressIn(Numbers(f)) == icao
    ensures var after := Handled(nl, tracks, f, time);
            && (forall other :: other != icao ==> (other in after <==> other in tracks) && (other in tracks ==> after[other] == tracks[other]))
            && if icao == 0 then after == tracks
               else
                 && icao in after
                 && OnlyAltitude(if icao in tracks then tracks[icao] else NEW_TRACK, after[icao], DecodeAltitude(Numbers(f)))
  {
    hide Parity.Syndrome, Numbers, AddressIn, FormatIn, TypeIn, DecodeAltitude, WithFrame, DecodeAc13;
  }
}
