/** A route: a path of segments with any names, also seen as a list of
    features in which consecutive segments of one name are merged. Routes
    are values; adding a segment yields a new route. */
module Routes {
  import opened Wrappers
  import opened Points
  import opened Segments
  import opened Features

  datatype Route = Route(
    startPoint: GeoPoint,
    endPoint: GeoPoint,
    startHeading: real,
    endHeading: real,
    segments: seq<GeoSegment>,
    features: seq<GeoFeature>,
    length: real,
    endingSegment: GeoSegment)

  /** The segment lists a route may hold: non-empty, every segment valid,
      each one starting where the previous one ends; names are free. */
  predicate Path(segs: seq<GeoSegment>) {
    && |segs| > 0
    && (forall i :: 0 <= i < |segs| ==> ValidSegment(segs[i]))
    && (forall i :: 0 <= i < |segs| - 1 ==> segs[i].p2 == segs[i + 1].p1)
  }

  /** One step of the private constructor's grouping: a segment named
      like the last feature extends it; any other starts a new feature. */
  function Merge(prev: seq<GeoFeature>, gs: GeoSegment): (fs: seq<GeoFeature>)
    ensures |fs| == if prev != [] && prev[|prev| - 1].name == gs.name then |prev| else |prev| + 1
  {
    if prev != [] && prev[|prev| - 1].name == gs.name then
      prev[..|prev| - 1] + [FeatureOver(prev[|prev| - 1].segments + [gs])]
    else
      prev + [FeatureOver([gs])]
  }

  /** The features of a segment list: the merge step applied to each
      segment in turn. */
  function Group(segs: seq<GeoSegment>): (fs: seq<GeoFeature>)
    ensures |fs| <= |segs|
    ensures |fs| == 0 <==> |segs| == 0
  {
    if segs == [] then [] else Merge(Group(segs[..|segs| - 1]), segs[|segs| - 1])
  }

  /** The features' segment lists, concatenated in order. */
  function Flatten(fs: seq<GeoFeature>): seq<GeoSegment> {
    if fs == [] then [] else Flatten(fs[..|fs| - 1]) + fs[|fs| - 1].segments
  }

  /** The total length of a list of features. */
  function SumFeatureLengths(fs: seq<GeoFeature>): real {
    if fs == [] then 0.0 else SumFeatureLengths(fs[..|fs| - 1]) + fs[|fs| - 1].length
  }

  /** The route whose segment list is segs, as the constructors build it. */
  function RouteOver(segs: seq<GeoSegment>): Route
    requires |segs| > 0
  {
    var first, last := segs[0], segs[|segs| - 1];
    Route(first.p1, last.p2, first.heading, last.heading, segs, Group(segs), SumLengths(segs), last)
  }

  /** The representation invariant: a path of segments, and every other
      field, the features included, derived from it. */
  predicate ValidRoute(r: Route) {
    Path(r.segments) && r == RouteOver(r.segments)
  }

  /** The merge step adds exactly the new segment at the end. */
  lemma MergeFlattens(prev: seq<GeoFeature>, gs: GeoSegment)
    ensures Flatten(Merge(prev, gs)) == Flatten(prev) + [gs]
  {
  }

  /** Regrouping loses no segment and adds none. */
  lemma {:induction false} GroupFlattens(segs: seq<GeoSegment>)
    ensures Flatten(Group(segs)) == segs
  {
    if segs != [] {
      var p, gs := segs[..|segs| - 1], segs[|segs| - 1];
      calc {
        Flatten(Group(segs));
        Flatten(Merge(Group(p), gs));
        { MergeFlattens(Group(p), gs); }
        Flatten(Group(p)) + [gs];
        { GroupFlattens(p); }
        p + [gs];
        { assert p + [gs] == segs; }
        segs;
      }
    }
  }

  /** A well-formed feature list: non-empty, every feature valid, and
      consecutive features differently named and joined end to start. */
  predicate Grouped(fs: seq<GeoFeature>) {
    && |fs| >= 1
    && (forall i :: 0 <= i < |fs| ==> ValidFeature(fs[i]))
    && (forall i :: 0 <= i < |fs| - 1 ==> fs[i].name != fs[i + 1].name && fs[i].end == fs[i + 1].start)
  }

  /** The merge step keeps a feature list well formed when the new
      segment starts where the last feature ends; the first feature keeps
      its start and the last one ends with the new segment. */
  lemma MergeGrouped(prev: seq<GeoFeature>, gs: GeoSegment)
    requires Grouped(prev) && ValidSegment(gs) && gs.p1 == prev[|prev| - 1].end
    ensures var fs := Merge(prev, gs);
      && Grouped(fs)
      && fs[0].start == prev[0].start && fs[0].startHeading == prev[0].startHeading
      && fs[|fs| - 1].end == gs.p2 && fs[|fs| - 1].endHeading == gs.heading
      && fs[|fs| - 1].name == gs.name
  {
    var k := |prev| - 1;
    if prev[k].name == gs.name {
      ExtendFeature(prev[k], gs);
    } else {
      assert Merge(prev, gs) == prev + [FromSegment(gs)];
    }
  }

  /** A path without its last segment is still a path, and it ends where
      the last segment starts. */
  lemma PathPrefix(segs: seq<GeoSegment>)
    requires Path(segs) && |segs| > 1
    ensures Path(segs[..|segs| - 1])
    ensures segs[..|segs| - 1][|segs| - 2].p2 == segs[|segs| - 1].p1
  {
  }

  /** The merge rule: a segment named like the last feature replaces that
      feature by its extension and keeps the count; any other segment
      appends a one-segment feature. The features before are kept. */
  lemma MergeRule(prev: seq<GeoFeature>, gs: GeoSegment)
    requires Grouped(prev) && ValidSegment(gs) && gs.p1 == prev[|prev| - 1].end
    ensures var fs := Merge(prev, gs); var k := |prev| - 1;
      if prev[k].name == gs.name then
        && |fs| == |prev| && fs[..k] == prev[..k]
        && fs[k].segments == prev[k].segments + [gs]
        && fs[k].length == prev[k].length + gs.length
      else
        && |fs| == |prev| + 1 && fs[..k + 1] == prev
        && fs[k + 1] == FromSegment(gs)
  {
  }

  /** The features of a path are well formed, and the first and last
      agree with the first and last segment. */
  lemma {:induction false} GroupWellFormed(segs: seq<GeoSegment>)
    requires Path(segs)
    ensures var fs := Group(segs);
      && Grouped(fs)
      && fs[0].start == segs[0].p1 && fs[0].startHeading == segs[0].heading
      && fs[|fs| - 1].end == segs[|segs| - 1].p2
      && fs[|fs| - 1].endHeading == segs[|segs| - 1].heading
      && fs[|fs| - 1].name == segs[|segs| - 1].name
  {
    var n := |segs| - 1;
    var p := segs[..n];
    var gs := segs[n];
    assert Group(segs) == Merge(Group(p), gs);
    if p == [] {
      var single := FromSegment(gs);
      assert Merge([], gs) == [single];
    } else {
      PathPrefix(segs);
      GroupWellFormed(p);
      MergeGrouped(Group(p), gs);
    }
  }

  /** For valid features, the summed feature lengths equal the summed
      segment lengths of the concatenation. */
  lemma {:induction false} SumFeatureLengthsFlatten(fs: seq<GeoFeature>)
    requires forall i :: 0 <= i < |fs| ==> ValidFeature(fs[i])
    ensures SumFeatureLengths(fs) == SumLengths(Flatten(fs))
  {
    if fs != [] {
      var k := |fs| - 1;
      SumFeatureLengthsFlatten(fs[..k]);
      SumLengthsAppend(Flatten(fs[..k]), fs[k].segments);
    }
  }

  /** The public constructor: the route of the single segment gs. */
  function NewRoute(gs: GeoSegment): (r: Route)
    requires ValidSegment(gs)
    ensures ValidRoute(r)
    ensures r.startPoint == gs.p1 && r.endPoint == gs.p2
    ensures r.startHeading == gs.heading && r.endHeading == gs.heading
    ensures r.segments == [gs] && r.features == [FromSegment(gs)]
    ensures r.length == gs.length && r.endingSegment == gs
  {
    assert [gs][..0] == [];
    Route(gs.p1, gs.p2, gs.heading, gs.heading, [gs], [FromSegment(gs)], gs.length, gs)
  }

  /** The route over a path extended by one segment: still valid, with
      the features of the merge step and the lengths added. */
  lemma ExtendRoute(r: Route, gs: GeoSegment)
    requires ValidRoute(r) && ValidSegment(gs) && gs.p1 == r.endPoint
    ensures var segs := r.segments + [gs];
      && Path(segs)
      && ValidRoute(RouteOver(segs))
      && Group(segs) == Merge(r.features, gs)
      && SumLengths(segs) == r.length + gs.length
  {
  }

  /** `addSegment`, through the private constructor: the route with gs
      appended. gs must start where the route ends. The start is kept,
      the end moves to gs, the length grows by gs's length, and the
      features follow the merge rule. */
  method AddSegment(r: Route, gs: GeoSegment) returns (r': Route)
    requires ValidRoute(r) && ValidSegment(gs) && gs.p1 == r.endPoint
    ensures ValidRoute(r')
    ensures r'.segments == r.segments + [gs]
    ensures r'.startPoint == r.startPoint && r'.startHeading == r.startHeading
    ensures r'.endPoint == gs.p2 && r'.endHeading == gs.heading && r'.endingSegment == gs
    ensures r'.length == r.length + gs.length
    ensures r'.features == Merge(r.features, gs)
  {
    ExtendRoute(r, gs);
    var segList := r.segments;
    segList := segList + [gs];
    var featureList := r.features;
    var lastFeatureSize := |r.features|;
    var lastFeature := r.features[lastFeatureSize - 1];
    assert lastFeature == EndFeature(r);
    if lastFeature.name == gs.name {
      var newLastFeature := Features.AddSegment(lastFeature, gs);
      featureList := featureList[..lastFeatureSize - 1];
      featureList := featureList + [newLastFeature];
    } else {
      featureList := featureList + [FromSegment(gs)];
    }
    r' := Route(r.startPoint, gs.p2, r.startHeading, gs.heading, segList, featureList, r.length + gs.length, gs);
    assert featureList == Merge(r.features, gs);
  }

  /** `getEndFeature`: the last feature, which ends where the route ends
      and is named like the last segment. */
  function EndFeature(r: Route): (f: GeoFeature)
    requires ValidRoute(r)
    ensures ValidFeature(f)
    ensures f.end == r.endPoint && f.endHeading == r.endHeading
    ensures f.name == r.endingSegment.name
  {
    GroupWellFormed(r.segments);
    r.features[|r.features| - 1]
  }

  /** `getGeoFeaturesSize`: at least one feature, and never more features
      than segments. */
  function FeatureCount(r: Route): (n: nat)
    requires ValidRoute(r)
    ensures 1 <= n <= |r.segments|
  {
    |r.features|
  }

  /** What `getGeoFeatures` promises: the first feature starts the route,
      the last ends it, the lengths add up, consecutive features have
      different names and meet end to start, and their segments,
      concatenated, are the route's segments. */
  lemma FeaturesContract(r: Route)
    requires ValidRoute(r)
    ensures var fs := r.features;
      && |fs| >= 1
      && fs[0].start == r.startPoint && fs[0].startHeading == r.startHeading
      && fs[|fs| - 1].end == r.endPoint && fs[|fs| - 1].endHeading == r.endHeading
      && r.length == SumFeatureLengths(fs)
      && (forall i :: 0 <= i < |fs| - 1 ==> fs[i].name != fs[i + 1].name && fs[i].end == fs[i + 1].start)
      && (forall i :: 0 <= i < |fs| ==> ValidFeature(fs[i]))
      && Flatten(fs) == r.segments
  {
    GroupWellFormed(r.segments);
    GroupFlattens(r.segments);
    SumFeatureLengthsFlatten(r.features);
  }

  /** What `getGeoSegments` promises, with the facts `checkRep` asserts
      on the fields: the first segment starts the route, the last ends
      it, the length is the sum of the segment lengths and is not
      negative, and both headings are compass headings. */
  lemma SegmentsContract(r: Route)
    requires ValidRoute(r)
    ensures var segs := r.segments;
      && |segs| >= 1
      && segs[0].p1 == r.startPoint && segs[0].heading == r.startHeading
      && segs[|segs| - 1].p2 == r.endPoint && segs[|segs| - 1].heading == r.endHeading
      && r.length == SumLengths(segs) && r.length >= 0.0
      && 0.0 <= r.startHeading < 360.0 && 0.0 <= r.endHeading < 360.0
  {
    SumLengthsNonNegative(r.segments);
  }

  /** The route's segments begin with the features' segments, compared
      with `GeoSegment.equals`. */
  predicate MatchesPrefix(flat: seq<GeoSegment>, segs: seq<GeoSegment>) {
    && |flat| <= |segs|
    && forall i :: 0 <= i < |flat| ==> SegmentEquals(flat[i], Some(segs[i]))
  }

  /** The conditions `checkRep` asserts, with those of each feature's own
      `checkRep`, which `getGeoSegments` runs as the outer loop reaches the
      feature. The nested loops check that the features' segments are a
      prefix of the segment list; they do not check that the two lists
      have the same length. */
  predicate RouteRepAsChecked(r: Route) {
    && 0.0 <= r.startHeading < 360.0 && 0.0 <= r.endHeading < 360.0
    && |r.features| > 0 && |r.segments| > 0
    && r.length >= 0.0
    && (forall i :: 0 <= i < |r.features| ==> RepAsChecked(r.features[i]))
    && MatchesPrefix(Flatten(r.features), r.segments)
  }

  lemma {:induction false} FlattenAppend(a: seq<GeoFeature>, b: seq<GeoFeature>)
    ensures Flatten(a + b) == Flatten(a) + Flatten(b)
  {
    if b == [] {
      assert a + b == a;
    } else {
      var n := |b| - 1;
      assert (a + b)[..|a + b| - 1] == a + b[..n];
      FlattenAppend(a, b[..n]);
    }
  }

  /** The j-th segment of feature i sits in the concatenation right after
      the segments of the features before i. */
  lemma FlattenAt(fs: seq<GeoFeature>, i: nat, j: nat)
    requires i < |fs| && j < |fs[i].segments|
    ensures |Flatten(fs[..i])| + j < |Flatten(fs)|
    ensures Flatten(fs)[|Flatten(fs[..i])| + j] == fs[i].segments[j]
  {
    assert fs == fs[..i] + [fs[i]] + fs[i + 1..];
    FlattenAppend(fs[..i] + [fs[i]], fs[i + 1..]);
    FlattenAppend(fs[..i], [fs[i]]);
    assert Flatten([fs[i]]) == fs[i].segments by {
      assert [fs[i]][..0] == [];
    }
  }

  /** `checkRep`: true exactly when none of its assertions fails. */
  method CheckRep(r: Route) returns (ok: bool)
    ensures ok <==> RouteRepAsChecked(r)
  {
    if !(0.0 <= r.startHeading < 360.0) || !(0.0 <= r.endHeading < 360.0)
      || |r.features| == 0 || |r.segments| == 0 || r.length < 0.0
    {
      return false;
    }
    var fs := r.features;
    var k := 0;
    var i := 0;
    while i < |fs|
      invariant 0 <= i <= |fs|
      invariant k == |Flatten(fs[..i])|
      invariant forall j :: 0 <= j < i ==> RepAsChecked(fs[j])
      invariant MatchesPrefix(Flatten(fs[..i]), r.segments)
    {
      var featureOk := Features.CheckRep(fs[i]);
      if !featureOk {
        return false;
      }
      var gsIter := fs[i].segments;
      var j := 0;
      while j < |gsIter|
        invariant 0 <= j <= |gsIter|
        invariant k == |Flatten(fs[..i])| + j
        invariant MatchesPrefix(Flatten(fs[..i]) + gsIter[..j], r.segments)
      {
        if k == |r.segments| {
          FlattenAt(fs, i, j);
          return false;
        }
        if !SegmentEquals(gsIter[j], Some(r.segments[k])) {
          FlattenAt(fs, i, j);
          return false;
        }
        assert gsIter[..j + 1] == gsIter[..j] + [gsIter[j]];
        k := k + 1;
        j := j + 1;
      }
      assert fs[..i + 1][..i] == fs[..i];
      assert gsIter[..j] == gsIter;
      i := i + 1;
    }
    assert fs[..i] == fs;
    return true;
  }

  lemma ValidRoutePassesCheckRep(r: Route)
    requires ValidRoute(r)
    ensures RouteRepAsChecked(r)
  {
    SegmentsContract(r);
    FeaturesContract(r);
    forall i | 0 <= i < |r.features|
      ensures RepAsChecked(r.features[i])
    {
      ValidFeaturePassesCheckRep(r.features[i]);
    }
    forall i | 0 <= i < |r.segments|
      ensures SegmentEquals(r.segments[i], Some(r.segments[i]))
    {
      SegmentEqualsIsEquivalence(r.segments[i], r.segments[i], r.segments[i]);
    }
  }
}
