/** Compact Position Reporting: the encoder (encode_frame_pos in src/apps/ui_adsb_tx.cpp) and the decoder
    (decode_frame_pos in src/apps/ui_adsb_rx.cpp) over exact reals. NL, the number of longitude zones at a
    latitude, is any function into 1..59. */
module AdsbCpr {

  const CPR_MAX: int := 131072
  const CPR_MAX_VALUE: real := 131072.0

  type Zones = real -> int

  ghost predicate GoodZones(nl: Zones) { forall lat :: 1 <= nl(lat) <= 59 }

  function CprMod(a: real, b: real): real
    requires b != 0.0
  {
    a - b * ((a / b).Floor as real)
  }

  /** NL minus the parity, at least one. */
  function CprN(nl: Zones, lat: real, parity: int): (n: int)
    ensures n >= 1
  {
    if nl(lat) - parity < 1 then 1 else nl(lat) - parity
  }

  // ----- the encoder

  predicate Parity(parity: int) { parity == 0 || parity == 1 }

  /** Zone height in degrees: 6 for even frames, 360/59 for odd ones. */
  function DeltaLat(parity: int): (d: real)
    requires Parity(parity)
    ensures d > 0.0
  {
    360.0 / (60.0 - parity as real)
  }

  function Yz(latitude: real, parity: int): int
    requires Parity(parity)
  {
    (CPR_MAX_VALUE * (CprMod(latitude, DeltaLat(parity)) / DeltaLat(parity)) + 0.5).Floor
  }

  /** The latitude the receiver will find. */
  function Rlat(latitude: real, parity: int): real
    requires Parity(parity)
  {
    DeltaLat(parity) * (Yz(latitude, parity) as real / CPR_MAX_VALUE + ((latitude / DeltaLat(parity)).Floor as real))
  }

  function DeltaLon(nl: Zones, rlat: real, parity: int): (d: real)
    ensures d > 0.0
  {
    if nl(rlat) - parity > 0 then Width(CprN(nl, rlat, parity)) else 360.0
  }

  /** Zone width in degrees, `n` zones round the globe. */
  function Width(n: int): (w: real)
    requires n >= 1
    ensures w > 0.0 && w * (n as real) == 360.0
  {
    360.0 / (n as real)
  }

  function Xz(longitude: real, deltaLon: real): int
    requires deltaLon > 0.0
  {
    (CPR_MAX_VALUE * (CprMod(longitude, deltaLon) / deltaLon) + 0.5).Floor
  }

  /** The 17-bit fields of a frame. */
  datatype Cpr = Cpr(lat: int, lon: int)

  function Field(z: int): int { CprMod(z as real, CPR_MAX_VALUE).Floor }

  function EncodePosition(nl: Zones, latitude: real, longitude: real, parity: int): Cpr
    requires Parity(parity)
  {
    Cpr(Field(Yz(latitude, parity)), Field(Xz(longitude, DeltaLon(nl, Rlat(latitude, parity), parity))))
  }

  // ----- the decoder

  datatype Fix = NoFix | Fix(latitude: real, longitude: real)

  /** Latitude zone index. */
  function ZoneIndex(even: Cpr, odd: Cpr): int {
    (59.0 * (even.lat as real / CPR_MAX_VALUE) - 60.0 * (odd.lat as real / CPR_MAX_VALUE) + 0.5).Floor
  }

  function Folded(lat: real): real { if lat >= 270.0 then lat - 360.0 else lat }

  function LatitudeEven(even: Cpr, odd: Cpr): real {
    Folded((360.0 / 60.0) * (CprMod(ZoneIndex(even, odd) as real, 60.0) + even.lat as real / CPR_MAX_VALUE))
  }

  function LatitudeOdd(even: Cpr, odd: Cpr): real {
    Folded((360.0 / 59.0) * (CprMod(ZoneIndex(even, odd) as real, 59.0) + odd.lat as real / CPR_MAX_VALUE))
  }

  /** A product, by name, so that the proofs can keep it closed. */
  function Times(a: real, b: real): real { a * b }

  function LongitudeIndex(nl: int, even: Cpr, odd: Cpr): int {
    (Times(even.lon as real / CPR_MAX_VALUE, (nl - 1) as real) - Times(odd.lon as real / CPR_MAX_VALUE, nl as real) + 0.5).Floor
  }

  function Wrapped(lon: real): real { if lon >= 180.0 then lon - 360.0 else lon }

  /** The longitude from zone index `m` among `ni` zones and the newer frame's field. */
  function LongitudeAt(m: int, ni: int, lon: int): real
    requires ni >= 1
  {
    Wrapped(Width(ni) * (CprMod(m as real, ni as real) + lon as real / CPR_MAX_VALUE))
  }

  function DecodePosition(nl: Zones, even: Cpr, odd: Cpr, evenIsNewer: bool): Fix {
    var latE, latO := LatitudeEven(even, odd), LatitudeOdd(even, odd);
    if nl(latE) != nl(latO) then NoFix
    else if evenIsNewer then
      Fix(latE, LongitudeAt(LongitudeIndex(nl(latE), even, odd), CprN(nl, latE, 0), even.lon))
    else
      Fix(latO, LongitudeAt(LongitudeIndex(nl(latO), even, odd), CprN(nl, latO, 1), odd.lon))
  }

  // ----- quantisation

  /** The nearest multiple of 2^-17, as an integer. */
  function Quantised(x: real): int { (CPR_MAX_VALUE * x + 0.5).Floor }

  lemma FloorShift(x: real, k: int)
    ensures (x + k as real).Floor == x.Floor + k
  {
  }

  /** Quantising the fraction and adding the whole part is quantising. */
  lemma FractionQuantised(x: real)
    ensures (CPR_MAX_VALUE * (x - x.Floor as real) + 0.5).Floor == Quantised(x) - CPR_MAX * x.Floor
  {
    var k := CPR_MAX * x.Floor;
    assert CPR_MAX_VALUE * (x - x.Floor as real) + 0.5 == (CPR_MAX_VALUE * x + 0.5) + (-k) as real;
    FloorShift(CPR_MAX_VALUE * x + 0.5, -k);
  }

  lemma QuantisationError(x: real)
    ensures -0.5 <= CPR_MAX_VALUE * x - Quantised(x) as real <= 0.5
  {
  }

  lemma FieldIsMod(z: int)
    ensures Field(z) == z % CPR_MAX
  {
    var q := z / CPR_MAX;
    assert z == CPR_MAX * q + z % CPR_MAX;
    assert (z as real / CPR_MAX_VALUE).Floor == q;
  }

  lemma ModOfInt(m: int, n: int)
    requires n >= 1
    ensures CprMod(m as real, n as real) == (m % n) as real
  {
    var q, r := m / n, m % n;
    DivisionFloor(m, n);
    assert m == n * q + r;
    assert (n * q) as real == n as real * q as real;
  }

  lemma DivisionFloor(m: int, n: int)
    requires n >= 1
    ensures (m as real / n as real).Floor == m / n
  {
    var q, r := m / n, m % n;
    assert m == n * q + r && 0 <= r < n;
    var x := m as real / n as real;
    assert x * n as real == m as real;
    assert m as real == (n as real) * (q as real) + r as real;
    var e := x - q as real;
    assert e * n as real == r as real;
    UnitFraction(e, n as real, r as real);
  }

  lemma UnitFraction(e: real, n: real, r: real)
    requires n >= 1.0 && 0.0 <= r < n && e * n == r
    ensures 0.0 <= e < 1.0
  {
    if e < 0.0 {
      NegativeProduct(e, n);
    } else if e >= 1.0 {
      LargeProduct(e, n);
    }
  }

  lemma LargeProduct(e: real, n: real)
    requires e >= 1.0 && n >= 1.0
    ensures e * n >= n
  {
    assert (e - 1.0) * n >= 0.0;
  }

  lemma NegativeProduct(e: real, n: real)
    requires e < 0.0 && n >= 1.0
    ensures e * n < 0.0
  {
  }

  // ----- latitude

  /** Latitude in zones. */
  function ZonesNorth(latitude: real, parity: int): real
    requires Parity(parity)
  {
    latitude / DeltaLat(parity)
  }

  lemma FractionOf(a: real, b: real)
    requires b > 0.0
    ensures CprMod(a, b) / b == a / b - (a / b).Floor as real
  {
    DifferenceQuotient(a, b, (a / b).Floor as real);
  }

  lemma DifferenceQuotient(a: real, b: real, k: real)
    requires b > 0.0
    ensures (a - b * k) / b == a / b - k
  {
    assert (a / b - k) * b == a - b * k;
  }

  /** What is sent of a coordinate in zones of `b` degrees. */
  lemma FractionField(a: real, b: real)
    requires b > 0.0
    ensures var z := (CPR_MAX_VALUE * (CprMod(a, b) / b) + 0.5).Floor;
            z == Quantised(a / b) - CPR_MAX * (a / b).Floor && Field(z) == Quantised(a / b) % CPR_MAX
  {
    hide CprMod, Quantised, Field;
    FractionOf(a, b);
    FractionQuantised(a / b);
    FieldIsMod(Quantised(a / b) - CPR_MAX * (a / b).Floor);
    WholeZonesDrop(Quantised(a / b), (a / b).Floor);
  }

  /** The field is the quantised zone count with whole zones dropped, and the latitude the receiver is to
      find is the quantised zone count. */
  lemma LatitudeField(latitude: real, parity: int)
    requires Parity(parity)
    ensures Field(Yz(latitude, parity)) == Quantised(ZonesNorth(latitude, parity)) % CPR_MAX
    ensures Rlat(latitude, parity) == DeltaLat(parity) * (Quantised(ZonesNorth(latitude, parity)) as real / CPR_MAX_VALUE)
  {
    hide Quantised, Field, DeltaLat;
    FractionField(latitude, DeltaLat(parity));
    var k := (latitude / DeltaLat(parity)).Floor;
    WholeAndFraction(Quantised(latitude / DeltaLat(parity)), k);
  }

  lemma WholeAndFraction(q: int, k: int)
    ensures (q - CPR_MAX * k) as real / CPR_MAX_VALUE + k as real == q as real / CPR_MAX_VALUE
  {
  }

  lemma WholeZonesDrop(q: int, k: int)
    ensures (q - CPR_MAX * k) % CPR_MAX == q % CPR_MAX
  {
    var r := q % CPR_MAX;
    assert q - CPR_MAX * k == CPR_MAX * (q / CPR_MAX - k) + r;
  }

  /** Both zone counts of a latitude, in whole zones and the rest. */
  lemma ZoneCounts(latitude: real)
    requires -90.0 <= latitude <= 90.0
    ensures var e, o := Quantised(ZonesNorth(latitude, 0)), Quantised(ZonesNorth(latitude, 1));
            && -15 * CPR_MAX <= e <= 15 * CPR_MAX && -1933312 <= o <= 1933312
            && -0.5 < 59.0 * (e as real / CPR_MAX_VALUE) - 60.0 * (o as real / CPR_MAX_VALUE) < 0.5
  {
    QuantisationError(ZonesNorth(latitude, 0));
    QuantisationError(ZonesNorth(latitude, 1));
  }

  /** The zone index is exact: the quantisation errors of the two fields cannot move it, whether or not a
      field has wrapped to zero. */
  lemma ZoneIndexIsExact(latitude: real, even: Cpr, odd: Cpr)
    requires -90.0 <= latitude <= 90.0
    requires even.lat == Quantised(ZonesNorth(latitude, 0)) % CPR_MAX && odd.lat == Quantised(ZonesNorth(latitude, 1)) % CPR_MAX
    ensures ZoneIndex(even, odd) ==
            60 * (Quantised(ZonesNorth(latitude, 1)) / CPR_MAX) - 59 * (Quantised(ZonesNorth(latitude, 0)) / CPR_MAX)
  {
    var e, o := Quantised(ZonesNorth(latitude, 0)), Quantised(ZonesNorth(latitude, 1));
    ZoneCounts(latitude);
    var k := 60 * (o / CPR_MAX) - 59 * (e / CPR_MAX);
    var rest := 59.0 * (e as real / CPR_MAX_VALUE) - 60.0 * (o as real / CPR_MAX_VALUE) + 0.5;
    assert e == CPR_MAX * (e / CPR_MAX) + even.lat && o == CPR_MAX * (o / CPR_MAX) + odd.lat;
    assert 59.0 * (even.lat as real / CPR_MAX_VALUE) - 60.0 * (odd.lat as real / CPR_MAX_VALUE) + 0.5 == rest + k as real;
    FloorShift(rest, k);
  }

  /** The decoded latitude is the encoder's, by either frame. */
  lemma LatitudeBack(latitude: real, even: Cpr, odd: Cpr)
    requires -90.0 <= latitude <= 90.0
    requires even.lat == Field(Yz(latitude, 0)) && odd.lat == Field(Yz(latitude, 1))
    ensures LatitudeEven(even, odd) == Rlat(latitude, 0) && LatitudeOdd(even, odd) == Rlat(latitude, 1)
  {
    hide Quantised, ZonesNorth, Field, Yz, Rlat, ZoneIndex, CprMod;
    LatitudeField(latitude, 0);
    LatitudeField(latitude, 1);
    ZoneIndexIsExact(latitude, even, odd);
    ZoneCounts(latitude);
    var e, o, j := Quantised(ZonesNorth(latitude, 0)), Quantised(ZonesNorth(latitude, 1)), ZoneIndex(even, odd);
    ModOfInt(j, 60);
    ModOfInt(j, 59);
    SmallMod(e / CPR_MAX, o / CPR_MAX);
    assert e == CPR_MAX * (e / CPR_MAX) + even.lat && o == CPR_MAX * (o / CPR_MAX) + odd.lat;
  }

  lemma SmallMod(e: int, o: int)
    requires -15 <= e <= 15 && -15 <= o <= 14
    ensures (60 * o - 59 * e) % 60 == (if e < 0 then e + 60 else e)
    ensures (60 * o - 59 * e) % 59 == (if o < 0 then o + 59 else o)
  {
  }

  /** Half a quantum: 3/2^17 degrees for even frames, (180/59)/2^17 for odd ones. */
  lemma LatitudeError(latitude: real, parity: int)
    requires Parity(parity)
    ensures var d := DeltaLat(parity) / (2.0 * CPR_MAX_VALUE); -d <= Rlat(latitude, parity) - latitude <= d
  {
    hide Quantised, Rlat;
    LatitudeField(latitude, parity);
    QuantisationError(ZonesNorth(latitude, parity));
    if parity == 0 {
      assert DeltaLat(parity) == 6.0;
    } else {
      assert DeltaLat(parity) == 360.0 / 59.0;
    }
  }

  // ----- longitude

  lemma ZoneWidth(nl: Zones, rlat: real, parity: int)
    requires Parity(parity) && GoodZones(nl)
    ensures DeltaLon(nl, rlat, parity) == Width(CprN(nl, rlat, parity))
  {
  }

  /** Longitude in zones, `n` zones round the globe. */
  function ZonesEast(longitude: real, n: int): real
    requires n >= 1
  {
    longitude * (n as real) / 360.0
  }

  lemma ByZoneWidth(longitude: real, n: int)
    requires n >= 1
    ensures longitude / Width(n) == ZonesEast(longitude, n)
  {
    hide Width;
    QuotientIs(longitude, Width(n), n as real, ZonesEast(longitude, n));
  }

  lemma QuotientIs(a: real, w: real, n: real, q: real)
    requires w > 0.0 && w * n == 360.0 && q == a * n / 360.0
    ensures a / w == q
  {
    assert q * w == a * (w * n) / 360.0;
  }

  /** The field of a longitude is its quantised zone count with whole zones dropped. */
  lemma LongitudeField(longitude: real, n: int)
    requires n >= 1
    ensures Field(Xz(longitude, Width(n))) == Quantised(ZonesEast(longitude, n)) % CPR_MAX
  {
    hide Quantised, Field, ZonesEast, Width;
    ByZoneWidth(longitude, n);
    FractionField(longitude, Width(n));
  }

  /** Quantisation moves the longitude zone index by less than half, for every number of zones. */
  lemma LongitudeIndexIsExact(longitude: real, nl: int, even: Cpr, odd: Cpr)
    requires 2 <= nl <= 59
    requires even.lon == Quantised(ZonesEast(longitude, nl)) % CPR_MAX
    requires odd.lon == Quantised(ZonesEast(longitude, nl - 1)) % CPR_MAX
    ensures LongitudeIndex(nl, even, odd) ==
            nl * (Quantised(ZonesEast(longitude, nl - 1)) / CPR_MAX) - (nl - 1) * (Quantised(ZonesEast(longitude, nl)) / CPR_MAX)
  {
    hide Quantised, ZonesEast, Times;
    var e, o := Quantised(ZonesEast(longitude, nl)), Quantised(ZonesEast(longitude, nl - 1));
    var x, y := ZonesEast(longitude, nl), ZonesEast(longitude, nl - 1);
    QuantisationError(x);
    QuantisationError(y);
    SameLongitude(longitude, nl);
    var k := nl * (o / CPR_MAX) - (nl - 1) * (e / CPR_MAX);
    var a, b := nl as real, (nl - 1) as real;
    var rest := Times(e as real / CPR_MAX_VALUE, b) - Times(o as real / CPR_MAX_VALUE, a);
    CrossError(e as real / CPR_MAX_VALUE, o as real / CPR_MAX_VALUE, x, y, a, b);
    assert e == CPR_MAX * (e / CPR_MAX) + even.lon && o == CPR_MAX * (o / CPR_MAX) + odd.lon;
    WholeParts(even.lon, odd.lon, e / CPR_MAX, o / CPR_MAX, nl);
    FloorShift(rest + 0.5, k);
  }

  lemma SameLongitude(longitude: real, nl: int)
    requires nl >= 2
    ensures Times(ZonesEast(longitude, nl), (nl - 1) as real) == Times(ZonesEast(longitude, nl - 1), nl as real)
  {
    var u, a, b := longitude / 360.0, nl as real, (nl - 1) as real;
    assert ZonesEast(longitude, nl) == u * a && ZonesEast(longitude, nl - 1) == u * b;
    assert (u * a) * b == (u * b) * a;
  }

  lemma CrossError(p: real, q: real, x: real, y: real, a: real, b: real)
    requires -0.5 <= CPR_MAX_VALUE * x - CPR_MAX_VALUE * p <= 0.5 && -0.5 <= CPR_MAX_VALUE * y - CPR_MAX_VALUE * q <= 0.5
    requires Times(x, b) == Times(y, a) && 0.0 <= a <= 59.0 && 0.0 <= b <= 59.0
    ensures -0.5 < Times(p, b) - Times(q, a) < 0.5
  {
    hide Times;
    ErrorTimes(p, x, b);
    ErrorTimes(q, y, a);
  }

  lemma ErrorTimes(p: real, x: real, b: real)
    requires -0.5 <= CPR_MAX_VALUE * x - CPR_MAX_VALUE * p <= 0.5 && b >= 0.0
    ensures -(0.5 * b) <= CPR_MAX_VALUE * Times(p, b) - CPR_MAX_VALUE * Times(x, b) <= 0.5 * b
  {
    hide Times;
    TimesBound(CPR_MAX_VALUE * p - CPR_MAX_VALUE * x, b);
    TimesDifference(p, x, b);
  }

  lemma TimesDifference(p: real, x: real, b: real)
    ensures Times(CPR_MAX_VALUE * p - CPR_MAX_VALUE * x, b) == CPR_MAX_VALUE * Times(p, b) - CPR_MAX_VALUE * Times(x, b)
  {
  }

  lemma TimesBound(e: real, b: real)
    requires -0.5 <= e <= 0.5 && b >= 0.0
    ensures -(0.5 * b) <= Times(e, b) <= 0.5 * b
  {
    NonNegativeProduct(0.5 - e, b);
    NonNegativeProduct(0.5 + e, b);
    assert (0.5 - e) * b == 0.5 * b - e * b;
    assert (0.5 + e) * b == 0.5 * b + e * b;
  }

  lemma NonNegativeProduct(x: real, y: real)
    requires x >= 0.0 && y >= 0.0
    ensures x * y >= 0.0
  {
  }

  /** Whole zones come out of the products as an integer. */
  lemma WholeParts(r: int, s: int, m: int, n: int, nl: int)
    ensures Times(r as real / CPR_MAX_VALUE, (nl - 1) as real) - Times(s as real / CPR_MAX_VALUE, nl as real) ==
            Times((CPR_MAX * m + r) as real / CPR_MAX_VALUE, (nl - 1) as real) -
            Times((CPR_MAX * n + s) as real / CPR_MAX_VALUE, nl as real) + (nl * n - (nl - 1) * m) as real
  {
    var a, b := nl as real, (nl - 1) as real;
    assert (CPR_MAX * m + r) as real / CPR_MAX_VALUE == m as real + r as real / CPR_MAX_VALUE;
    assert (CPR_MAX * n + s) as real / CPR_MAX_VALUE == n as real + s as real / CPR_MAX_VALUE;
    IntProduct(nl, n);
    IntProduct(nl - 1, m);
  }

  lemma IntProduct(a: int, b: int)
    ensures (a * b) as real == a as real * b as real
  {
  }

  /** `decoded` is `longitude` up to whole turns and half a quantum of a zone. */
  predicate SameMeridian(decoded: real, longitude: real, ni: int, turns: int)
    requires ni >= 1
  {
    var off := decoded - longitude - 360.0 * (turns as real);
    -360.0 <= off * (ni as real) * (2.0 * CPR_MAX_VALUE) <= 360.0
  }

  /** Any zone index congruent to the whole zones of the newer frame gives the longitude back. */
  lemma LongitudeFromIndex(longitude: real, ni: int, m: int, lon: int)
    requires ni >= 1 && lon == Quantised(ZonesEast(longitude, ni)) % CPR_MAX
    requires m % ni == (Quantised(ZonesEast(longitude, ni)) / CPR_MAX) % ni
    ensures -180.0 <= LongitudeAt(m, ni, lon) < 180.0
    ensures exists turns :: SameMeridian(LongitudeAt(m, ni, lon), longitude, ni, turns)
  {
    hide Quantised, ZonesEast, CprMod, Width;
    var q, x := Quantised(ZonesEast(longitude, ni)), ZonesEast(longitude, ni);
    var n, z, t := ni as real, q as real / CPR_MAX_VALUE, (q / CPR_MAX) / ni;
    var w, sum := Width(ni), (m % ni) as real + lon as real / CPR_MAX_VALUE;
    ModOfInt(m, ni);
    QuantisationError(x);
    PartOfWhole(w, n, sum, 360.0);
    assert q == CPR_MAX * (q / CPR_MAX) + lon;
    assert q / CPR_MAX == ni * t + (q / CPR_MAX) % ni;
    IntProduct(ni, t);
    assert sum == z - n * (t as real);
    ZonesTimes(longitude, ni);
    MeridianNear(n, w, sum, z, x, t as real, longitude);
    var turns := if w * sum >= 180.0 then -t - 1 else -t;
    assert LongitudeAt(m, ni, lon) == if w * sum >= 180.0 then w * sum - 360.0 else w * sum;
    assert LongitudeAt(m, ni, lon) - longitude - 360.0 * (turns as real) == w * sum - longitude + 360.0 * (t as real);
    assert SameMeridian(LongitudeAt(m, ni, lon), longitude, ni, turns);
  }

  lemma ZonesTimes(longitude: real, n: int)
    requires n >= 1
    ensures ZonesEast(longitude, n) * 360.0 == longitude * (n as real)
  {
  }

  lemma PartOfWhole(w: real, n: real, sum: real, whole: real)
    requires w > 0.0 && w * n == whole && 0.0 <= sum < n
    ensures 0.0 <= w * sum < whole
  {
    NonNegativeProduct(w, sum);
    ScaledLess(w, sum, n);
  }

  lemma ScaledLess(w: real, x: real, y: real)
    requires w > 0.0 && x < y
    ensures w * x < w * y
  {
    PositiveProduct(w, y - x);
  }

  lemma PositiveProduct(x: real, y: real)
    requires x > 0.0 && y > 0.0
    ensures x * y > 0.0
  {
  }

  lemma MeridianNear(n: real, w: real, sum: real, z: real, x: real, t: real, longitude: real)
    requires w * n == 360.0 && sum == z - n * t && x * 360.0 == longitude * n
    requires -0.5 <= CPR_MAX_VALUE * x - CPR_MAX_VALUE * z <= 0.5
    ensures -360.0 <= (w * sum - longitude + 360.0 * t) * n * (2.0 * CPR_MAX_VALUE) <= 360.0
  {
    var off := w * sum - longitude + 360.0 * t;
    assert off * n == 360.0 * (z - x) by {
      assert (w * sum) * n == (w * n) * sum;
      assert off * n == (w * sum) * n - longitude * n + (360.0 * t) * n;
      assert 360.0 * sum == 360.0 * z - (360.0 * t) * n;
    }
  }

  // ----- round trip

  /** The encodings of one position. */
  predicate Encodes(nl: Zones, latitude: real, longitude: real, even: Cpr, odd: Cpr) {
    even == EncodePosition(nl, latitude, longitude, 0) && odd == EncodePosition(nl, latitude, longitude, 1)
  }

  lemma CongruentIndex(nl: int, e: int, o: int)
    requires nl >= 2
    ensures (nl * o - (nl - 1) * e) % nl == e % nl && (nl * o - (nl - 1) * e) % (nl - 1) == o % (nl - 1)
  {
    AddMultiple(e, nl, o - e, nl * o - (nl - 1) * e);
    AddMultiple(o, nl - 1, o - e, nl * o - (nl - 1) * e);
  }

  lemma AddMultiple(a: int, n: int, k: int, sum: int)
    requires n >= 1 && sum == a + n * k
    ensures sum % n == a % n
  {
    var q, r := a / n, a % n;
    Distribute(n, q, k);
    UniqueRemainder(sum, n, q + k, r);
  }

  lemma Distribute(n: int, q: int, k: int)
    ensures n * (q + k) == n * q + n * k
  {
  }

  lemma UniqueRemainder(a: int, n: int, q: int, r: int)
    requires n >= 1 && a == n * q + r && 0 <= r < n
    ensures a % n == r
  {
    var p, s := a / n, a % n;
    Distribute(n, p - q, q);
    BigMultiple(n, p - q);
  }

  /** A multiple of `n` closer to zero than `n` is zero. */
  lemma BigMultiple(n: int, k: int)
    requires n >= 1
    ensures -n < n * k < n ==> k == 0
  {
  }

  /** CPR round trip. A latitude in [-90, 90] and any longitude: decoding the two encodings yields the
      encoder's latitude, which is within half a quantum; and if the zone counts agree, a fix whose longitude
      is in [-180, 180) and within half a quantum of a zone, modulo whole turns. If they do not agree,
      there is no fix. */
  lemma PositionRoundTrip(nl: Zones, latitude: real, longitude: real, even: Cpr, odd: Cpr, evenIsNewer: bool)
    requires GoodZones(nl) && -90.0 <= latitude <= 90.0 && Encodes(nl, latitude, longitude, even, odd)
    ensures var fix := DecodePosition(nl, even, odd, evenIsNewer);
            var parity := if evenIsNewer then 0 else 1;
            var d := DeltaLat(parity) / (2.0 * CPR_MAX_VALUE);
            && (fix.NoFix? <==> nl(Rlat(latitude, 0)) != nl(Rlat(latitude, 1)))
            && (fix.Fix? ==>
                  && fix.latitude == Rlat(latitude, parity) && -d <= fix.latitude - latitude <= d
                  && -180.0 <= fix.longitude < 180.0
                  && exists turns :: SameMeridian(fix.longitude, longitude, CprN(nl, fix.latitude, parity), turns))
  {
    hide Quantised, ZonesEast, Field, Xz, Yz, Rlat, LongitudeIndex, LongitudeAt, DeltaLat, SameMeridian, LatitudeEven, LatitudeOdd,
         DeltaLon;
    LatitudeBack(latitude, even, odd);
    LatitudeError(latitude, 0);
    LatitudeError(latitude, 1);
    var latE, latO := Rlat(latitude, 0), Rlat(latitude, 1);
    if nl(latE) == nl(latO) {
      var zones := nl(latE);
      ZoneWidth(nl, latE, 0);
      ZoneWidth(nl, latO, 1);
      LongitudeField(longitude, CprN(nl, latE, 0));
      LongitudeField(longitude, CprN(nl, latO, 1));
      var m := LongitudeIndex(zones, even, odd);
      var e, o := Quantised(ZonesEast(longitude, CprN(nl, latE, 0))), Quantised(ZonesEast(longitude, CprN(nl, latO, 1)));
      if zones >= 2 {
        LongitudeIndexIsExact(longitude, zones, even, odd);
        CongruentIndex(zones, e / CPR_MAX, o / CPR_MAX);
      }
      LongitudeFromIndex(longitude, CprN(nl, latE, 0), m, even.lon);
      LongitudeFromIndex(longitude, CprN(nl, latO, 1), m, odd.lon);
    }
  }
}
