/** Turning a route into driving directions: the phrase for a change of
    heading, and the concatenation of one line per feature. */
module Formatter {
  import opened Features
  import opened Routes

  /** A compass heading: 0 is north, 90 east. */
  predicate IsHeading(h: real) {
    0.0 <= h < 360.0
  }

  /** The phrase for turning by an absolute angle a, with the three
      turn phrases of one side. */
  function Band(a: real, slight: string, turn: string, sharp: string): string {
    if a < 10.0 then "Continue"
    else if a < 60.0 then slight
    else if a < 120.0 then turn
    else if a < 179.0 then sharp
    else "U-turn"
  }

  const RightPhrases: set<string> := {"Turn slight right", "Turn right", "Turn sharp right"}
  const LeftPhrases: set<string> := {"Turn slight left", "Turn left", "Turn sharp left"}
  const TurnPhrases: set<string> := {"Continue", "U-turn"} + RightPhrases + LeftPhrases

  /** `getTurnString` as written. The difference new - orig lies in
      (-360, 360); from 0 up to 180 it is a right turn, from -180 up to 0
      or above 180 a left turn, and a difference of exactly 180 or below
      -180 matches no branch, so the phrase stays empty. */
  function TurnString(origHeading: real, newHeading: real): (s: string)
    requires IsHeading(origHeading) && IsHeading(newHeading)
    ensures s in TurnPhrases || s == ""
    ensures s == "" <==> newHeading - origHeading == 180.0 || newHeading - origHeading < -180.0
  {
    var relativeAngle := newHeading - origHeading;
    if 0.0 <= relativeAngle < 180.0 then
      Band(relativeAngle, "Turn slight right", "Turn right", "Turn sharp right")
    else if -180.0 <= relativeAngle < 0.0 || relativeAngle > 180.0 then
      var a := if relativeAngle > 180.0 then relativeAngle - 360.0 else relativeAngle;
      Band(-a, "Turn slight left", "Turn left", "Turn sharp left")
    else
      ""
  }

  /** The clockwise angle from one heading to another, in [0, 360). */
  function ClockwiseAngle(origHeading: real, newHeading: real): (c: real)
    requires IsHeading(origHeading) && IsHeading(newHeading)
    ensures 0.0 <= c < 360.0
    ensures c == 0.0 <==> origHeading == newHeading
  {
    if newHeading >= origHeading then newHeading - origHeading else newHeading - origHeading + 360.0
  }

  /** The turn from one heading to another as a signed angle in
      (-180, 180]: positive to the right, negative to the left. */
  function SignedTurn(origHeading: real, newHeading: real): (t: real)
    requires IsHeading(origHeading) && IsHeading(newHeading)
    ensures -180.0 < t <= 180.0
    ensures t == ClockwiseAngle(origHeading, newHeading) || t == ClockwiseAngle(origHeading, newHeading) - 360.0
  {
    var d := newHeading - origHeading;
    if d > 180.0 then d - 360.0 else if d <= -180.0 then d + 360.0 else d
  }

  /** `getTurnString` as its documentation describes it: every pair of
      headings gets a phrase, turning right by the signed turn when it is
      not negative, left otherwise. */
  function TurnStringCorrected(origHeading: real, newHeading: real): (s: string)
    requires IsHeading(origHeading) && IsHeading(newHeading)
    ensures s in TurnPhrases
  {
    var t := SignedTurn(origHeading, newHeading);
    if t >= 0.0 then Band(t, "Turn slight right", "Turn right", "Turn sharp right")
    else Band(-t, "Turn slight left", "Turn left", "Turn sharp left")
  }

  /** The documented table, stated on the clockwise angle c: a turn of
      less than 10 degrees either way continues, one of at least 179
      either way is a U-turn, and the bands in between go right when c
      is below 180 and left when it is above. */
  lemma TurnStringCorrectedTable(origHeading: real, newHeading: real)
    requires IsHeading(origHeading) && IsHeading(newHeading)
    ensures var c := ClockwiseAngle(origHeading, newHeading);
      var s := TurnStringCorrected(origHeading, newHeading);
      && (s == "Continue" <==> c < 10.0 || c > 350.0)
      && (s == "Turn slight right" <==> 10.0 <= c < 60.0)
      && (s == "Turn right" <==> 60.0 <= c < 120.0)
      && (s == "Turn sharp right" <==> 120.0 <= c < 179.0)
      && (s == "U-turn" <==> 179.0 <= c <= 181.0)
      && (s == "Turn sharp left" <==> 181.0 < c <= 240.0)
      && (s == "Turn left" <==> 240.0 < c <= 300.0)
      && (s == "Turn slight left" <==> 300.0 < c <= 350.0)
  {
  }

  /** Outside its gap, the as-written phrase is the documented one. */
  lemma TurnStringAgrees(origHeading: real, newHeading: real)
    requires IsHeading(origHeading) && IsHeading(newHeading)
    requires newHeading - origHeading != 180.0 && newHeading - origHeading >= -180.0
    ensures TurnString(origHeading, newHeading) == TurnStringCorrected(origHeading, newHeading)
  {
  }

  /** Headings 350 then 5 are a slight right turn of 15 degrees, but the
      as-written phrase is empty; an exact about-turn from 0 to 180 is
      empty too. */
  lemma TurnStringGap()
    ensures TurnString(350.0, 5.0) == "" && TurnStringCorrected(350.0, 5.0) == "Turn slight right"
    ensures TurnString(0.0, 180.0) == "" && TurnStringCorrected(0.0, 180.0) == "U-turn"
  {
  }

  /** The same phrase for the other side. */
  function Mirror(s: string): (m: string)
    ensures s in RightPhrases <==> m in LeftPhrases
    ensures s in LeftPhrases <==> m in RightPhrases
  {
    match s
    case "Turn slight right" => "Turn slight left"
    case "Turn right" => "Turn left"
    case "Turn sharp right" => "Turn sharp left"
    case "Turn slight left" => "Turn slight right"
    case "Turn left" => "Turn right"
    case "Turn sharp left" => "Turn sharp right"
    case _ => s
  }

  /** Turning back the other way takes the mirrored phrase. */
  lemma TurnStringCorrectedMirror(origHeading: real, newHeading: real)
    requires IsHeading(origHeading) && IsHeading(newHeading)
    ensures TurnStringCorrected(newHeading, origHeading) == Mirror(TurnStringCorrected(origHeading, newHeading))
  {
  }

  /** Worked cases of the as-written phrase: a small right change, a
      moderate right and left change, and a difference above 180 that
      reads as a sharp left. */
  lemma TurnStringExamples()
    ensures TurnString(0.0, 5.0) == "Continue"
    ensures TurnString(0.0, 45.0) == "Turn slight right"
    ensures TurnString(45.0, 0.0) == "Turn slight left"
    ensures TurnString(0.0, 200.0) == "Turn sharp left"
    ensures TurnString(5.0, 350.0) == "Turn slight left"
  {
  }

  /** The heading the traveller faces before feature i: the initial one
      for the first feature, the end heading of the previous one after. */
  function HeadingBefore(fs: seq<GeoFeature>, heading: real, i: nat): real
    requires i <= |fs|
  {
    if i == 0 then heading else fs[i - 1].endHeading
  }

  /** The directions for a list of features: one line per feature, in
      order, each computed with the heading faced before it. */
  function Directions(fs: seq<GeoFeature>, heading: real, computeLine: (GeoFeature, real) -> string): string {
    if fs == [] then ""
    else
      var k := |fs| - 1;
      Directions(fs[..k], heading, computeLine) + computeLine(fs[k], HeadingBefore(fs, heading, k))
  }

  /** Directions split at any point: the second part starts facing the
      heading the first part ends with. */
  lemma {:induction false} DirectionsSplit(a: seq<GeoFeature>, b: seq<GeoFeature>, heading: real, computeLine: (GeoFeature, real) -> string)
    ensures Directions(a + b, heading, computeLine)
      == Directions(a, heading, computeLine) + Directions(b, HeadingBefore(a, heading, |a|), computeLine)
  {
    if b == [] {
      assert a + b == a;
    } else {
      var k := |b| - 1;
      var ab := a + b;
      assert ab[..|ab| - 1] == a + b[..k];
      DirectionsSplit(a, b[..k], heading, computeLine);
      assert HeadingBefore(ab, heading, |ab| - 1) == HeadingBefore(b, HeadingBefore(a, heading, |a|), k);
    }
  }

  /** When every line ends with a newline, so do non-empty directions. */
  lemma {:induction false} DirectionsNewlineTerminated(fs: seq<GeoFeature>, heading: real, computeLine: (GeoFeature, real) -> string)
    requires fs != []
    requires forall f, h :: |computeLine(f, h)| > 0 && computeLine(f, h)[|computeLine(f, h)| - 1] == '\n'
    ensures var d := Directions(fs, heading, computeLine); |d| > 0 && d[|d| - 1] == '\n'
  {
  }

  /** Along a valid route every line is computed from a compass heading,
      so a line may call `getTurnString` with it. */
  lemma RouteHeadings(r: Route, heading: real)
    requires ValidRoute(r) && IsHeading(heading)
    ensures forall i :: 0 <= i < |r.features| ==> IsHeading(HeadingBefore(r.features, heading, i))
  {
    FeaturesContract(r);
    forall i | 0 <= i < |r.features|
      ensures IsHeading(r.features[i].endHeading)
    {
      FeatureContract(r.features[i]);
    }
  }

  /** `computeDirections`: walks the route's features, appending the line
      for each and carrying the heading forward. The abstract
      `computeLine` is a parameter. */
  method ComputeDirections(route: Route, heading: real, computeLine: (GeoFeature, real) -> string)
    returns (directions: string)
    requires IsHeading(heading)
    ensures directions == Directions(route.features, heading, computeLine)
  {
    directions := "";
    var fs := route.features;
    var currHeading := heading;
    var i := 0;
    while i < |fs|
      invariant 0 <= i <= |fs|
      invariant currHeading == HeadingBefore(fs, heading, i)
      invariant directions == Directions(fs[..i], heading, computeLine)
    {
      var currGeoFeature := fs[i];
      assert fs[..i + 1][..i] == fs[..i];
      assert HeadingBefore(fs[..i + 1], heading, i) == currHeading;
      directions := directions + computeLine(currGeoFeature, currHeading);
      currHeading := currGeoFeature.endHeading;
      i := i + 1;
    }
    assert fs[..i] == fs;
  }
}
