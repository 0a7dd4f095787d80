# Routes, features and driving directions

This project models the core of a small route-finding library near the
Technion. The library has four immutable value classes and one formatter:

- `GeoPoint`: a point given in millionths of a degree. Its coordinates are
  bounded. It has a flat-earth distance and a compass heading to another
  point.
- `GeoSegment`: a named, directed straight segment. It stores the length
  and heading that the constructor derives from its endpoints.
- `GeoFeature`: a non-empty run of segments that share one name and are
  joined end to start.
- `Route`: a path of segments with any names. The route also keeps the
  same path as a list of features: consecutive segments with one name are
  merged into a feature.
- `RouteFormatter`: `getTurnString` picks a turn phrase for a change of
  heading; `computeDirections` joins one line per feature.

Every class is a Dafny `datatype` (modules `Points`, `Segments`,
`Features`, `Routes`, `Formatter`; `Wrappers` holds an `Option`). A Java
argument that is `null` or of another class is `None`. Doubles are exact
`real`s. `java.lang.Math` (`pow`, `sqrt`, `atan2` with `toDegrees`) is a
`MathLib` parameter, constrained only by the facts listed in
`Points.ValidMath`.

Each loop of the modelled operations is a Dafny `method` with its `while`
loop. Each one is proved against a function that specifies it:

- the length sum in the private `GeoFeature` constructor;
- both `checkRep` walks;
- `GeoFeature.equals`;
- `computeDirections`.

The copy-then-mutate private `Route` constructor has no loop. It is the
method `Routes.AddSegment`, proved against `Merge` and `RouteOver`.

A feature's fields are a function of its segment list (`FeatureOver`). A
route's fields, its features included, are a function of its segment list
(`RouteOver`). The features are given by `Group`, which applies the merge
step `Merge` to each segment in turn. The representation invariants
`ValidFeature` and `ValidRoute` state exactly this.

The two `checkRep` methods are modelled as they check, assertions reached
through nested calls included, and each valid value is proved to pass.
`GeoFeature.checkRep` tests the name and the end point of every segment
but the last (src/HW1/GeoFeature.java:370-384), so the last segment's are
not tested. `Route.checkRep` checks that the features' segments match the
start of the segment list, not that the two lists have the same length;
`Routes.GroupFlattens` proves that they do for valid routes.

## Model

| member | source | states |
|---|---|---|
| Points.ValidPoint | src/HW1/GeoPoint.java:219-224 | the rep invariant `checkRep` asserts: in degrees, the latitude lies in [-90, 90] and the longitude in [-180, 180] |
| Points.NewGeoPoint | src/HW1/GeoPoint.java:75-89 | the constructor needs both coordinates within ±90 and ±180 degrees (in millionths); the point it builds meets the rep invariant, and the getters return exactly its arguments |
| Points.PointEquals | src/HW1/GeoPoint.java:175-191 | `equals` is true iff the argument is a point with the same latitude and longitude, i.e. iff it is the same value |
| Points.PointEqualsIsEquivalence | src/HW1/GeoPoint.java:175-191 | point equality is reflexive, symmetric and transitive, and false for a missing or foreign argument |
| Points.LatitudeDelta | src/HW1/GeoPoint.java:126 | the Java `int` difference of two valid latitudes (also taken at lines 157-158 of `headingTo`) never overflows, and is zero exactly when the latitudes agree |
| Points.LongitudeDelta | src/HW1/GeoPoint.java:131 | the same for longitudes |
| Points.DistanceTo | src/HW1/GeoPoint.java:111-137 | `distanceTo` is never negative, and is zero exactly between equal points |
| Points.DistanceSymmetric | src/HW1/GeoPoint.java:118-137 | the distance from p to q equals the distance from q to p |
| Points.NormalizeHeading | src/HW1/GeoPoint.java:165-171 | adding 360 to a negative angle keeps the direction; any angle in [-360, 360) ends in [0, 360) |
| Points.HeadingTo | src/HW1/GeoPoint.java:142-172 | `headingTo` needs two different points and returns a heading in [0, 360) |
| Points.HeadingCompass | src/HW1/GeoPoint.java:142-148 | north is 0, east 90, south 180, west 270; a point to the east gives a heading in (0, 180), one to the west a heading in (180, 360) |
| Segments.NewGeoSegment | src/HW1/GeoSegment.java:50-74 | the constructor stores the name and endpoints, the length `p1.distanceTo(p2)` and the heading `p1.headingTo(p2)`; the segment meets the rep invariant and its length is not zero, so `getHeading`'s precondition holds |
| Segments.Reverse | src/HW1/GeoSegment.java:77-87 | `reverse` keeps the name, swaps the endpoints, and keeps the length |
| Segments.SegmentEquals | src/HW1/GeoSegment.java:139-143 | documented `equals`: true iff the argument is a segment with the same name and the same two endpoints; length and heading are not compared |
| Segments.SegmentEqualsIsEquivalence | src/HW1/GeoSegment.java:26-30 | segment equality (same name, equal endpoints) is reflexive, symmetric and transitive, and false for a missing argument |
| Segments.SegmentEqualsIsValueEquality | src/HW1/GeoSegment.java:139-143 | between constructed segments, `equals` holds iff the two values are identical |
| Segments.ReverseTwice | src/HW1/GeoSegment.java:77-87 | reversing twice gives a segment equal to the original, and the very same value for a constructed segment |
| Features.FromSegment | src/HW1/GeoFeature.java:73-99 | the one-segment constructor takes name, start, end, both headings and length from gs, holds exactly [gs], and meets the rep invariant |
| Features.SumLengthsNonNegative | src/HW1/GeoFeature.java:131-137 | a sum of non-negative segment lengths is non-negative |
| Features.SumLengthsAppend | src/HW1/GeoFeature.java:222-225 | the length of a concatenation is the sum of the two lengths |
| Features.FromList | src/HW1/GeoFeature.java:101-139 | the private constructor's length loop computes the sum of the segment lengths; the feature it builds from a chain is the one that chain determines, and it is valid |
| Features.ExtendFeature | src/HW1/GeoFeature.java:218-245 | appending a segment with the feature's name that starts at the feature's end gives a valid feature with the same name, start and start heading, the segment's end and end heading, and the lengths added |
| Features.AddSegment | src/HW1/GeoFeature.java:218-245 | `addSegment` needs gs to carry the feature's name and start at its end; it returns a valid feature whose segments are the old ones followed by gs, whose end and end heading are gs's and whose length is the old length plus gs's |
| Features.FeatureContract | src/HW1/GeoFeature.java:248-265 | `getGeoSegments`: start and start heading from the first segment, end and end heading from the last, length the sum of the segment lengths and not negative, headings in [0, 360), non-empty name carried by every segment, consecutive segments joined end to start |
| Features.CheckRep | src/HW1/GeoFeature.java:356-385 | `checkRep` passes exactly when the conditions it asserts hold: non-empty name, both headings in [0, 360), a non-empty segment list, a non-negative length, and for every segment but the last its name, its end point's own rep invariant (asserted by `GeoPoint.equals`, src/HW1/GeoPoint.java:183 and 188) and the equality of that end point with the next segment's start |
| Features.ValidFeaturePassesCheckRep | src/HW1/GeoFeature.java:344-385 | every valid feature passes `checkRep` |
| Features.Equals | src/HW1/GeoFeature.java:276-308 | `equals` as written is true iff the argument is a feature with as many segments |
| Features.EqualsCorrected | src/HW1/GeoFeature.java:276-282 | documented `equals`: true iff the argument is a feature whose segments equal this one's, position by position |
| Features.SameSegmentsProperties | src/HW1/GeoFeature.java:276-282 | documented feature equality is an equivalence; equal valid features agree on name, start and end |
| Features.EqualsComparesOnlySizes | src/HW1/GeoFeature.java:294-307 | there are two valid features of equal size with different segments, which `equals` as written calls equal |
| Routes.Group | src/HW1/Route.java:117-133 | the features built by the merge step over a segment list are never more than the segments, and there are none exactly when there are no segments |
| Routes.Merge | src/HW1/Route.java:117-133 | one step of the private constructor: the feature count stays the same when gs is named like the last feature, and grows by one otherwise |
| Routes.MergeRule | src/HW1/Route.java:117-133 | merge rule: a same-named segment replaces the last feature by its extension with gs, with the earlier features kept; any other segment appends the one-segment feature of gs after the old features |
| Routes.MergeFlattens | src/HW1/Route.java:115-133 | a merge step adds exactly gs to the end of the features' concatenated segments |
| Routes.GroupFlattens | src/HW1/Route.java:226-229 | the features' segments, concatenated in order, are exactly the route's segments |
| Routes.MergeGrouped | src/HW1/Route.java:226-243 | a merge step keeps the features valid, with no two consecutive features of one name and each ending where the next starts; the first feature keeps its start and the last ends with gs |
| Routes.GroupWellFormed | src/HW1/Route.java:226-243 | the features of a path are well formed in that sense, and the first and last feature agree with the first and last segment |
| Routes.SumFeatureLengthsFlatten | src/HW1/Route.java:236 | the sum of the feature lengths is the sum of the lengths of their segments |
| Routes.NewRoute | src/HW1/Route.java:72-95 | the public constructor: start and end from gs, both headings gs's, one segment and one feature built from gs, length gs's; the route is valid |
| Routes.ExtendRoute | src/HW1/Route.java:106-137 | a valid route extended by a segment that starts at its end is still a path; its features are the merge step's and its length the sum |
| Routes.AddSegment | src/HW1/Route.java:106-137 | `addSegment` needs gs to start at the route's end; the new route is valid, its segments are the old ones followed by gs, the start and start heading are kept, end, end heading and ending segment come from gs, the length is the sum, and the features follow the merge step |
| Routes.EndFeature | src/HW1/Route.java:160-169 | `getEndFeature` returns a valid feature that ends where the route ends, with its end heading and the last segment's name |
| Routes.FeatureCount | src/HW1/Route.java:365-368 | `getGeoFeaturesSize` is at least one and at most the number of segments |
| Routes.FeaturesContract | src/HW1/Route.java:226-247 | `getGeoFeatures`: the first feature starts the route, the last ends it, the length is the sum of the feature lengths, no two consecutive features share a name and each ends where the next starts, all features are valid, and their segments make up the route's |
| Routes.SegmentsContract | src/HW1/Route.java:250-267 | `getGeoSegments`: the first segment starts the route, the last ends it, the length is the sum of the segment lengths and is not negative, and both headings lie in [0, 360) |
| Routes.FlattenAppend | src/HW1/Route.java:349-362 | concatenating the segments of two feature lists is concatenation of their concatenations |
| Routes.FlattenAt | src/HW1/Route.java:349-362 | the j-th segment of feature i sits in the concatenation right after the segments of the features before i |
| Routes.CheckRep | src/HW1/Route.java:333-363 | `checkRep` passes exactly when its field checks hold, every feature passes its own `checkRep` (run by `getGeoSegments`, src/HW1/GeoFeature.java:270), and the features' segments match the start of the segment list one by one |
| Routes.ValidRoutePassesCheckRep | src/HW1/Route.java:333-363 | every valid route passes `checkRep` |
| Formatter.TurnString | src/HW1/RouteFormatter.java:88-157 | `getTurnString` as written needs two headings in [0, 360); its phrase is one of the eight, or empty exactly when new - orig is 180 or below -180 |
| Formatter.ClockwiseAngle | src/HW1/RouteFormatter.java:75-86 | the clockwise angle between two headings lies in [0, 360) and is zero exactly for equal headings |
| Formatter.SignedTurn | src/HW1/RouteFormatter.java:75-86 | the turn as a signed angle in (-180, 180], differing from the clockwise angle by 0 or 360 |
| Formatter.TurnStringCorrected | src/HW1/RouteFormatter.java:69-87 | the documented classifier always gives one of the eight phrases |
| Formatter.TurnStringCorrectedTable | src/HW1/RouteFormatter.java:75-86 | the documented table in terms of the clockwise angle c: each phrase holds exactly on its band, right phrases for c below 180, left phrases above, U-turn for c in [179, 181] |
| Formatter.TurnStringAgrees | src/HW1/RouteFormatter.java:95-154 | away from the two gaps, the as-written phrase is the documented one |
| Formatter.TurnStringGap | src/HW1/RouteFormatter.java:99-156 | headings 350 then 5 give the empty phrase instead of "Turn slight right", and 0 then 180 the empty phrase instead of "U-turn" |
| Formatter.Mirror | src/HW1/RouteFormatter.java:86 | mirroring swaps the right phrases and the left phrases |
| Formatter.TurnStringCorrectedMirror | src/HW1/RouteFormatter.java:80-86 | turning from new back to orig gives the mirrored phrase |
| Formatter.TurnStringExamples | src/HW1/RouteFormatter.java:95-154 | worked cases of the code as written: 0 to 5 continues, 0 to 45 is slight right, 45 to 0 slight left, 0 to 200 sharp left, 5 to 350 slight left |
| Formatter.DirectionsSplit | src/HW1/RouteFormatter.java:38-50 | the directions for a concatenation are those of the first part followed by those of the second, which starts facing the heading the first part ends with |
| Formatter.DirectionsNewlineTerminated | src/HW1/RouteFormatter.java:20-21 | when every line ends with a newline, so do directions for at least one feature |
| Formatter.RouteHeadings | src/HW1/RouteFormatter.java:16-17 | along a valid route every line is computed from a heading in [0, 360) |
| Formatter.ComputeDirections | src/HW1/RouteFormatter.java:23-53 | `computeDirections` needs a heading in [0, 360); its result is the in-order concatenation of `computeLine(f_i, h_i)` with h_0 the given heading and h_(i+1) the end heading of f_i |

## Left out

- `Route.equals` (src/HW1/Route.java:276-298) is not modelled. It returns false when the argument is not a route or has a different number of features. When the counts are equal it loops, calling `next()` only when the two iterators are the same object; they never are, and a route always has a feature, so that loop never terminates.
- `hashCode` and the `toString` methods are not modelled. `hashCode` is the constant 1. `Route.toString` returns "". The other `toString` methods format their fields, and `GeoFeature.toString` walks its segments (`GeoSegment.toString` has no body).
- `RouteFormatterGUI.java` and `GeoSegmentsDialog.java` are not part of this model. They are Swing presentation code.
- The concrete `computeLine` implementations and the example segment data are not part of this model. `computeLine` is a function parameter of `Formatter.Directions` and `Formatter.ComputeDirections`.
- `java.lang.Math` is a `MathLib` parameter. The model relies only on the facts in `Points.ValidMath`. Floating-point rounding is not modelled: doubles are exact reals, so `Points.DistanceSymmetric` and the length sums are exact.
- Points.DistanceTo: states range and zero-ness only, because the actual value depends on `Math.sqrt` and `Math.pow`, which are parameters here.
- Points.HeadingTo: states the range only; its directions are stated by `Points.HeadingCompass` from the sign facts assumed of `atan2`, not exact angles.
- The `GeoSegment` getters, `equals` and `toString` have no bodies in the source. Getters are field selectors. `equals` follows its documentation (`Segments.SegmentEquals`).
- `GeoSegment.checkRep` is called but not defined in the source. `Segments.ValidSegment` follows the rep-invariant comment (src/HW1/GeoSegment.java:50-54). It adds p1 ≠ p2, because the constructor calls `headingTo`, which asserts that the points differ.
- Segments.NewGeoSegment: requires a non-empty name, which the rep-invariant comment demands; the constructor itself only asks for a non-null name.
- Null checks are not modelled. Reference equality is not modelled either: `GeoFeature.addSegment` asserts that the feature's end point and the new segment's start point are the same object (src/HW1/GeoFeature.java:234), and the model compares point values. Whether the reference test holds depends on whether the caller built consecutive segments over one shared `GeoPoint` object, which values cannot express.
- The comment that feature names in a route are unique (src/HW1/Route.java:52) is not modelled. The code only keeps consecutive feature names different, and that is what the model proves.

## Findings

| source | as written | input that shows it | evidently intended | confidence | as-written member | corrected member |
|---|---|---|---|---|---|---|
| src/HW1/RouteFormatter.java:99-156 | a difference new - orig of exactly 180, or below -180, matches neither branch and the phrase is "" | orig 350, new 5 gives ""; orig 0, new 180 gives "" | every pair of headings gets a phrase: 350 to 5 is "Turn slight right", 0 to 180 is "U-turn" | not executed | Formatter.TurnString, Formatter.TurnStringGap | Formatter.TurnStringCorrected, Formatter.TurnStringCorrectedTable |
| src/HW1/GeoFeature.java:297-298 | both iterators run over the argument's segments, so each segment is compared with itself and only the sizes decide | one-segment features on "Hanita" and "Trumpeldor" with the same endpoints are called equal | compare this feature's segments with the argument's, position by position | not executed | Features.Equals, Features.EqualsComparesOnlySizes | Features.EqualsCorrected, Features.SameSegmentsProperties |
