/** Named, directed straight segments between two points. */
module Segments {
  import opened Wrappers
  import opened Points

  /** A segment keeps the length and heading that its constructor
      derives from the endpoints. */
  datatype GeoSegment = GeoSegment(name: string, p1: GeoPoint, p2: GeoPoint, length: real, heading: real)

  /** The representation invariant of a segment. The endpoints differ,
      because the constructor asks for the heading from p1 to p2. */
  predicate ValidSegment(s: GeoSegment) {
    && s.name != ""
    && ValidPoint(s.p1) && ValidPoint(s.p2) && s.p1 != s.p2
    && s.length >= 0.0
    && 0.0 <= s.heading < 360.0
  }

  /** s carries the length and heading the constructor computes with m. */
  ghost predicate BuiltWith(m: MathLib, s: GeoSegment) {
    && ValidMath(m) && ValidPoint(s.p1) && ValidPoint(s.p2) && s.p1 != s.p2
    && s.length == DistanceTo(m, s.p1, s.p2)
    && s.heading == HeadingTo(m, s.p1, s.p2)
  }

  /** The constructor. Every segment it builds has a non-zero length, so
      the precondition of `getHeading` always holds. */
  function NewGeoSegment(m: MathLib, name: string, p1: GeoPoint, p2: GeoPoint): (s: GeoSegment)
    requires ValidMath(m) && name != ""
    requires ValidPoint(p1) && ValidPoint(p2) && p1 != p2
    ensures ValidSegment(s) && BuiltWith(m, s)
    ensures s.name == name && s.p1 == p1 && s.p2 == p2
    ensures s.length > 0.0
  {
    GeoSegment(name, p1, p2, DistanceTo(m, p1, p2), HeadingTo(m, p1, p2))
  }

  /** `reverse`: same name, endpoints swapped, same length. */
  function Reverse(m: MathLib, s: GeoSegment): (r: GeoSegment)
    requires ValidMath(m) && ValidSegment(s)
    ensures ValidSegment(r) && BuiltWith(m, r)
    ensures r.name == s.name && r.p1 == s.p2 && r.p2 == s.p1
    ensures BuiltWith(m, s) ==> r.length == s.length
  {
    DistanceSymmetric(m, s.p1, s.p2);
    NewGeoSegment(m, s.name, s.p2, s.p1)
  }

  /** `equals`: the names and both endpoints agree. `None` stands for an
      argument that is not a segment. Length and heading are not
      compared. */
  function SegmentEquals(s: GeoSegment, o: Option<GeoSegment>): (b: bool)
    ensures b <==> o.Some? && o.value.name == s.name && o.value.p1 == s.p1 && o.value.p2 == s.p2
  {
    && o.Some?
    && s.name == o.value.name
    && PointEquals(s.p1, Some(o.value.p1))
    && PointEquals(s.p2, Some(o.value.p2))
  }

  lemma SegmentEqualsIsEquivalence(s: GeoSegment, t: GeoSegment, u: GeoSegment)
    ensures SegmentEquals(s, Some(s))
    ensures SegmentEquals(s, Some(t)) <==> SegmentEquals(t, Some(s))
    ensures SegmentEquals(s, Some(t)) && SegmentEquals(t, Some(u)) ==> SegmentEquals(s, Some(u))
    ensures !SegmentEquals(s, None)
  {
  }

  /** Between segments built with the same functions, `equals` is equality
      of the values: length and heading follow from the endpoints. */
  lemma SegmentEqualsIsValueEquality(m: MathLib, s: GeoSegment, t: GeoSegment)
    requires BuiltWith(m, s) && BuiltWith(m, t)
    ensures SegmentEquals(s, Some(t)) <==> s == t
  {
  }

  /** Reversing twice gives back an equal segment, and the very same
      segment when it was built by the constructor. */
  lemma ReverseTwice(m: MathLib, s: GeoSegment)
    requires ValidMath(m) && ValidSegment(s)
    ensures SegmentEquals(Reverse(m, Reverse(m, s)), Some(s))
    ensures BuiltWith(m, s) ==> Reverse(m, Reverse(m, s)) == s
  {
  }
}
