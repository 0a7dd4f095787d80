/** A geographic feature: a non-empty run of segments that share one name
    and are joined end to start. Features are values; adding a segment
    yields a new feature. */
module Features {
  import opened Wrappers
  import opened Points
  import opened Segments

  datatype GeoFeature = GeoFeature(
    start: GeoPoint,
    end: GeoPoint,
    startHeading: real,
    endHeading: real,
    segments: seq<GeoSegment>,
    name: string,
    length: real)

  /** The total length of a list of segments, added up from the first. */
  function SumLengths(segs: seq<GeoSegment>): real {
    if segs == [] then 0.0 else SumLengths(segs[..|segs| - 1]) + segs[|segs| - 1].length
  }

  lemma {:induction false} SumLengthsNonNegative(segs: seq<GeoSegment>)
    requires forall i :: 0 <= i < |segs| ==> segs[i].length >= 0.0
    ensures SumLengths(segs) >= 0.0
  {
    if segs != [] {
      SumLengthsNonNegative(segs[..|segs| - 1]);
    }
  }

  /** Length is additive over concatenation. */
  lemma {:induction false} SumLengthsAppend(a: seq<GeoSegment>, b: seq<GeoSegment>)
    ensures SumLengths(a + b) == SumLengths(a) + SumLengths(b)
  {
    if b == [] {
      assert a + b == a;
    } else {
      var n := |b| - 1;
      assert (a + b)[..|a + b| - 1] == a + b[..n];
      SumLengthsAppend(a, b[..n]);
    }
  }

  /** The segment lists a feature may hold: non-empty, every segment
      valid and named like the first, each one starting where the
      previous one ends. */
  predicate Chain(segs: seq<GeoSegment>) {
    && |segs| > 0
    && (forall i :: 0 <= i < |segs| ==> ValidSegment(segs[i]) && segs[i].name == segs[0].name)
    && (forall i :: 0 <= i < |segs| - 1 ==> segs[i].p2 == segs[i + 1].p1)
  }

  /** The feature the private constructor builds from a segment list:
      start and start heading from the first segment, end and end heading
      from the last, the first segment's name, the summed length. */
  function FeatureOver(segs: seq<GeoSegment>): GeoFeature
    requires |segs| > 0
  {
    var first, last := segs[0], segs[|segs| - 1];
    GeoFeature(first.p1, last.p2, first.heading, last.heading, segs, first.name, SumLengths(segs))
  }

  /** The representation invariant: a chain of segments, and every other
      field derived from it. */
  predicate ValidFeature(f: GeoFeature) {
    Chain(f.segments) && f == FeatureOver(f.segments)
  }

  /** The public constructor: a feature of the single segment gs. */
  function FromSegment(gs: GeoSegment): (f: GeoFeature)
    requires ValidSegment(gs)
    ensures ValidFeature(f) && f.segments == [gs]
    ensures f.name == gs.name && f.start == gs.p1 && f.end == gs.p2
    ensures f.startHeading == gs.heading && f.endHeading == gs.heading
    ensures f.length == gs.length
  {
    assert SumLengths([gs]) == gs.length by {
      assert [gs][..0] == [];
    }
    GeoFeature(gs.p1, gs.p2, gs.heading, gs.heading, [gs], gs.name, gs.length)
  }

  /** The private constructor: copies the list and sums the lengths. */
  method FromList(segs: seq<GeoSegment>) returns (f: GeoFeature)
    requires Chain(segs)
    ensures ValidFeature(f) && f == FeatureOver(segs)
  {
    var name := segs[0].name;
    var startSegment := segs[0];
    var endSegment := segs[|segs| - 1];
    var tmpLength := 0.0;
    var i := 0;
    while i < |segs|
      invariant 0 <= i <= |segs|
      invariant tmpLength == SumLengths(segs[..i])
    {
      assert segs[..i + 1][..i] == segs[..i];
      tmpLength := tmpLength + segs[i].length;
      i := i + 1;
    }
    assert segs[..i] == segs;
    f := GeoFeature(startSegment.p1, endSegment.p2, startSegment.heading, endSegment.heading, segs, name, tmpLength);
  }

  /** Appending a segment that carries the feature's name and starts
      where the feature ends gives a valid feature with the same start,
      the segment's end, and the lengths added. */
  lemma ExtendFeature(f: GeoFeature, gs: GeoSegment)
    requires ValidFeature(f) && ValidSegment(gs)
    requires gs.name == f.name && gs.p1 == f.end
    ensures var r := FeatureOver(f.segments + [gs]);
      && ValidFeature(r)
      && r.name == f.name && r.start == f.start && r.startHeading == f.startHeading
      && r.end == gs.p2 && r.endHeading == gs.heading
      && r.length == f.length + gs.length
  {
  }

  /** `addSegment`: the feature with gs appended. gs must carry the
      feature's name and start where the feature ends. */
  method AddSegment(f: GeoFeature, gs: GeoSegment) returns (r: GeoFeature)
    requires ValidFeature(f) && ValidSegment(gs)
    requires gs.name == f.name && gs.p1 == f.end
    ensures ValidFeature(r) && r == FeatureOver(f.segments + [gs])
    ensures r.segments == f.segments + [gs]
    ensures r.name == f.name && r.start == f.start && r.startHeading == f.startHeading
    ensures r.end == gs.p2 && r.endHeading == gs.heading
    ensures r.length == f.length + gs.length
  {
    ExtendFeature(f, gs);
    var newList := f.segments;
    newList := newList + [gs];
    r := FromList(newList);
  }

  /** What `getGeoSegments` promises about a feature, together with the
      facts `checkRep` asserts: the fields agree with the first and last
      segment, the length is the sum of the segment lengths and is not
      negative, the headings are compass headings, and all segments carry
      the feature's name and are joined end to start. */
  lemma FeatureContract(f: GeoFeature)
    requires ValidFeature(f)
    ensures |f.segments| > 0
    ensures f.start == f.segments[0].p1 && f.startHeading == f.segments[0].heading
    ensures f.end == f.segments[|f.segments| - 1].p2
    ensures f.endHeading == f.segments[|f.segments| - 1].heading
    ensures f.length == SumLengths(f.segments) && f.length >= 0.0
    ensures 0.0 <= f.startHeading < 360.0 && 0.0 <= f.endHeading < 360.0
    ensures f.name != ""
    ensures forall i :: 0 <= i < |f.segments| ==> f.segments[i].name == f.name
    ensures forall i :: 0 <= i < |f.segments| - 1 ==> f.segments[i].p2 == f.segments[i + 1].p1
  {
    SumLengthsNonNegative(f.segments);
  }

  /** The conditions `checkRep` asserts, as its loop checks them: the
      name is tested on every segment but the last, and the end point of
      every segment but the last passes the point's own `checkRep`, which
      its `equals` runs before comparing it with the next start. */
  predicate RepAsChecked(f: GeoFeature) {
    && f.name != ""
    && 0.0 <= f.startHeading < 360.0 && 0.0 <= f.endHeading < 360.0
    && |f.segments| > 0
    && f.length >= 0.0
    && (forall i :: 0 <= i < |f.segments| - 1 ==> f.segments[i].name == f.name)
    && (forall i :: 0 <= i < |f.segments| - 1 ==> ValidPoint(f.segments[i].p2))
    && (forall i :: 0 <= i < |f.segments| - 1 ==> PointEquals(f.segments[i].p2, Some(f.segments[i + 1].p1)))
  }

  /** `checkRep`: true exactly when none of its assertions fails. */
  method CheckRep(f: GeoFeature) returns (ok: bool)
    ensures ok <==> RepAsChecked(f)
  {
    if f.name == "" || !(0.0 <= f.startHeading < 360.0) || !(0.0 <= f.endHeading < 360.0)
      || |f.segments| == 0 || f.length < 0.0
    {
      return false;
    }
    var segs := f.segments;
    var curr := 0;
    while curr < |segs| - 1
      invariant 0 <= curr <= |segs| - 1
      invariant forall i :: 0 <= i < curr ==> segs[i].name == f.name
      invariant forall i :: 0 <= i < curr ==> ValidPoint(segs[i].p2)
      invariant forall i :: 0 <= i < curr ==> PointEquals(segs[i].p2, Some(segs[i + 1].p1))
    {
      if segs[curr].name != f.name {
        return false;
      }
      if !ValidPoint(segs[curr].p2) {
        return false;
      }
      if !PointEquals(segs[curr].p2, Some(segs[curr + 1].p1)) {
        return false;
      }
      curr := curr + 1;
    }
    return true;
  }

  lemma ValidFeaturePassesCheckRep(f: GeoFeature)
    requires ValidFeature(f)
    ensures RepAsChecked(f)
  {
    FeatureContract(f);
  }

  /** `equals` as written: after comparing the sizes it walks the
      argument's segments with both iterators, so every comparison is of
      a segment with itself and only the sizes decide. */
  method Equals(f: GeoFeature, o: Option<GeoFeature>) returns (eq: bool)
    ensures eq <==> o.Some? && |o.value.segments| == |f.segments|
  {
    if o.None? {
      return false;
    }
    var other := o.value;
    if |f.segments| != |other.segments| {
      return false;
    }
    var iter := other.segments;
    var thisIter := other.segments;
    var i := 0;
    while i < |thisIter|
      invariant 0 <= i <= |thisIter|
    {
      if !SegmentEquals(thisIter[i], Some(iter[i])) {
        return false;
      }
      i := i + 1;
    }
    return true;
  }

  /** Two features hold equal segments in the same order. */
  predicate SameSegments(f: GeoFeature, g: GeoFeature) {
    && |f.segments| == |g.segments|
    && forall i :: 0 <= i < |f.segments| ==> SegmentEquals(f.segments[i], Some(g.segments[i]))
  }

  /** `equals` as documented: the receiver's segments are compared with
      the argument's, position by position. */
  method EqualsCorrected(f: GeoFeature, o: Option<GeoFeature>) returns (eq: bool)
    ensures eq <==> o.Some? && SameSegments(f, o.value)
  {
    if o.None? {
      return false;
    }
    var other := o.value;
    if |f.segments| != |other.segments| {
      return false;
    }
    var i := 0;
    while i < |f.segments|
      invariant 0 <= i <= |f.segments|
      invariant forall j :: 0 <= j < i ==> SegmentEquals(f.segments[j], Some(other.segments[j]))
    {
      if !SegmentEquals(f.segments[i], Some(other.segments[i])) {
        return false;
      }
      i := i + 1;
    }
    return true;
  }

  /** The documented equality is an equivalence, and equal valid features
      agree on name, start and end. */
  lemma SameSegmentsProperties(f: GeoFeature, g: GeoFeature, h: GeoFeature)
    ensures SameSegments(f, f)
    ensures SameSegments(f, g) ==> SameSegments(g, f)
    ensures SameSegments(f, g) && SameSegments(g, h) ==> SameSegments(f, h)
    ensures ValidFeature(f) && ValidFeature(g) && SameSegments(f, g) ==>
      f.name == g.name && f.start == g.start && f.end == g.end
  {
  }

  /** Two valid one-segment features on different streets: `equals` as
      written calls them equal (same size), the documented equality does
      not. */
  lemma EqualsComparesOnlySizes()
    ensures exists f, g ::
      (ValidFeature(f) && ValidFeature(g) && |f.segments| == |g.segments| && !SameSegments(f, g))
  {
    var a := GeoPoint(32783098, 35014528);
    var b := GeoPoint(32783098, 35015528);
    var f := FromSegment(GeoSegment("Hanita", a, b, 1.0, 90.0));
    var g := FromSegment(GeoSegment("Trumpeldor", a, b, 1.0, 90.0));
    assert !SegmentEquals(f.segments[0], Some(g.segments[0]));
    assert ValidFeature(f) && ValidFeature(g) && |f.segments| == |g.segments| && !SameSegments(f, g);
  }
}
