/** Points on the earth, given in millionths of a degree, and the
    "flat earth" distance and compass heading between two of them. */
module Points {
  import opened Wrappers

  const MinLatitude: int := -90 * 1000000
  const MaxLatitude: int := 90 * 1000000
  const MinLongitude: int := -180 * 1000000
  const MaxLongitude: int := 180 * 1000000

  /** Millionths of a degree per degree. */
  const Millionth: int := 1000000

  /** Kilometres per degree near the Technion (flat-earth approximation). */
  const KmPerDegreeLatitude: real := 110.901
  const KmPerDegreeLongitude: real := 93.681

  /** The range of a Java `int`. */
  const IntMin: int := -0x8000_0000
  const IntMax: int := 0x7FFF_FFFF

  /** North latitudes and east longitudes are positive. */
  datatype GeoPoint = GeoPoint(latitude: int, longitude: int)

  /** The representation invariant of a point: in degrees, the latitude
      lies in [-90, 90] and the longitude in [-180, 180]. */
  predicate ValidPoint(p: GeoPoint): (b: bool)
    ensures b <==> && -90.0 <= p.latitude as real / 1000000.0 <= 90.0
                   && -180.0 <= p.longitude as real / 1000000.0 <= 180.0
  {
    && MinLatitude <= p.latitude <= MaxLatitude
    && MinLongitude <= p.longitude <= MaxLongitude
  }

  /** The constructor; the getters give back exactly its arguments. */
  function NewGeoPoint(latitude: int, longitude: int): (p: GeoPoint)
    requires MinLatitude <= latitude <= MaxLatitude
    requires MinLongitude <= longitude <= MaxLongitude
    ensures ValidPoint(p)
    ensures p.latitude == latitude && p.longitude == longitude
  {
    GeoPoint(latitude, longitude)
  }

  /** `equals`: `None` stands for an argument that is not a point.
      Comparing the two fields is the same as comparing the values. */
  function PointEquals(p: GeoPoint, o: Option<GeoPoint>): (b: bool)
    ensures b <==> o == Some(p)
  {
    o.Some? && p.latitude == o.value.latitude && p.longitude == o.value.longitude
  }

  lemma PointEqualsIsEquivalence(p: GeoPoint, q: GeoPoint, r: GeoPoint)
    ensures PointEquals(p, Some(p))
    ensures PointEquals(p, Some(q)) <==> PointEquals(q, Some(p))
    ensures PointEquals(p, Some(q)) && PointEquals(q, Some(r)) ==> PointEquals(p, Some(r))
    ensures !PointEquals(p, None)
  {
  }

  /** The Java `int` difference of two latitudes; it never wraps around. */
  function LatitudeDelta(p: GeoPoint, q: GeoPoint): (d: int)
    requires ValidPoint(p) && ValidPoint(q)
    ensures IntMin <= d <= IntMax
    ensures d == 0 <==> p.latitude == q.latitude
  {
    p.latitude - q.latitude
  }

  /** The Java `int` difference of two longitudes; it never wraps around. */
  function LongitudeDelta(p: GeoPoint, q: GeoPoint): (d: int)
    requires ValidPoint(p) && ValidPoint(q)
    ensures IntMin <= d <= IntMax
    ensures d == 0 <==> p.longitude == q.longitude
  {
    p.longitude - q.longitude
  }

  /** The `java.lang.Math` functions the geometry calls: `sqrt`, `pow`,
      and `atan2` followed by `toDegrees`. They are parameters of the
      model, constrained by ValidMath. */
  datatype MathLib = MathLib(
    sqrt: real -> real,
    pow: (real, real) -> real,
    atan2Degrees: (real, real) -> real)

  /** What `toDegrees(atan2(y, x))` returns for a direction (y, x) other
      than (0, 0): an angle in (-180, 180] on the side of the x axis that
      y is on, and the exact angle on the axes (y = +0.0 on the negative
      x axis gives 180). */
  predicate Atan2Degrees(y: real, x: real, a: real) {
    && -180.0 < a <= 180.0
    && (y > 0.0 ==> 0.0 < a < 180.0)
    && (y < 0.0 ==> -180.0 < a < 0.0)
    && (y == 0.0 && x > 0.0 ==> a == 0.0)
    && (y == 0.0 && x < 0.0 ==> a == 180.0)
    && (x == 0.0 && y > 0.0 ==> a == 90.0)
    && (x == 0.0 && y < 0.0 ==> a == -90.0)
  }

  /** The facts about the three functions that the model relies on:
      a square is non-negative, even, and zero only at zero; a square root
      of a non-negative number is non-negative and zero only at zero. */
  ghost predicate ValidMath(m: MathLib) {
    && (forall x :: m.pow(x, 2.0) >= 0.0 && (m.pow(x, 2.0) == 0.0 <==> x == 0.0))
    && (forall x :: m.pow(-x, 2.0) == m.pow(x, 2.0))
    && (forall x :: 0.0 <= x ==> 0.0 <= m.sqrt(x) && (m.sqrt(x) == 0.0 <==> x == 0.0))
    && (forall y, x :: (y != 0.0 || x != 0.0) ==> Atan2Degrees(y, x, m.atan2Degrees(y, x)))
  }

  /** `distanceTo`: the straight-line distance in kilometres on the flat
      surface. It is never negative, and zero exactly between equal points. */
  function DistanceTo(m: MathLib, p: GeoPoint, q: GeoPoint): (d: real)
    requires ValidMath(m) && ValidPoint(p) && ValidPoint(q)
    ensures d >= 0.0
    ensures d == 0.0 <==> p == q
  {
    var latitudeDelta := LatitudeDelta(p, q) as real / Millionth as real;
    var longitudeDelta := LongitudeDelta(p, q) as real / Millionth as real;
    m.sqrt(m.pow(latitudeDelta * KmPerDegreeLatitude, 2.0) + m.pow(longitudeDelta * KmPerDegreeLongitude, 2.0))
  }

  lemma DistanceSymmetric(m: MathLib, p: GeoPoint, q: GeoPoint)
    requires ValidMath(m) && ValidPoint(p) && ValidPoint(q)
    ensures DistanceTo(m, p, q) == DistanceTo(m, q, p)
  {
  }

  /** The normalisation step of `headingTo`: a negative angle is moved up
      by one full turn; the result denotes the same direction, and an
      angle from (-360, 360) lands in [0, 360). */
  function NormalizeHeading(theta: real): (h: real)
    ensures h == theta || h == theta + 360.0
    ensures -360.0 <= theta < 360.0 ==> 0.0 <= h < 360.0
  {
    if theta < 0.0 then theta + 360.0 else theta
  }

  /** `headingTo`: the compass heading from p to q (north 0, east 90,
      south 180, west 270). The two points must differ. */
  function HeadingTo(m: MathLib, p: GeoPoint, q: GeoPoint): (h: real)
    requires ValidMath(m) && ValidPoint(p) && ValidPoint(q) && p != q
    ensures 0.0 <= h < 360.0
  {
    var latitudeDelta := LatitudeDelta(q, p) as real * KmPerDegreeLatitude;
    var longitudeDelta := LongitudeDelta(q, p) as real * KmPerDegreeLongitude;
    NormalizeHeading(m.atan2Degrees(longitudeDelta, latitudeDelta))
  }

  /** Where the heading points: east of p gives a heading strictly between
      north and south, west of p one strictly between south and north
      again, and the four axis directions give the compass points. */
  lemma HeadingCompass(m: MathLib, p: GeoPoint, q: GeoPoint)
    requires ValidMath(m) && ValidPoint(p) && ValidPoint(q) && p != q
    ensures q.longitude > p.longitude ==> 0.0 < HeadingTo(m, p, q) < 180.0
    ensures q.longitude < p.longitude ==> 180.0 < HeadingTo(m, p, q) < 360.0
    ensures q.longitude == p.longitude && q.latitude > p.latitude ==> HeadingTo(m, p, q) == 0.0
    ensures q.longitude == p.longitude && q.latitude < p.latitude ==> HeadingTo(m, p, q) == 180.0
    ensures q.latitude == p.latitude && q.longitude > p.longitude ==> HeadingTo(m, p, q) == 90.0
    ensures q.latitude == p.latitude && q.longitude < p.longitude ==> HeadingTo(m, p, q) == 270.0
  {
  }
}
