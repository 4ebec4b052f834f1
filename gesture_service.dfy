/** The per-frame hand classifier and composite-gesture resolver of
    services/gestureService.ts.

    Distances are compared squared: `sqrt(D) < k * sqrt(S)` holds exactly when
    `D < k * k * S` because both sides are non-negative (ThresholdBySquares).
    The predicates therefore take the SQUARED hand scale. The square root that
    the payload distances need and `Math.atan2` are foreign numerics; they
    come in as the two functions of a MathLib, whose laws are Lawful. */
module GestureService {
  import opened Types

  /** `Math.sqrt` and `Math.atan2`. */
  datatype MathLib = MathLib(sqrt: real -> real, atan2: (real, real) -> real)

  /** What the model relies on about the foreign numerics: sqrt is the
      non-negative square root, atan2 lies in [-pi, pi]. */
  ghost predicate Lawful(m: MathLib)
  {
    (forall v: real :: 0.0 <= v ==> 0.0 <= m.sqrt(v) && m.sqrt(v) * m.sqrt(v) == v) &&
    (forall dy: real, dx: real :: -Pi <= m.atan2(dy, dx) <= Pi)
  }

  /** Thresholds of the three hand predicates, as multiples of the hand scale. */
  const PinchFactor: real := 0.35
  const FoldFactor: real := 1.4
  const ExtendFactor: real := 1.6

  /** The finger tips the fist and open-palm tests look at. */
  const Tips: seq<int> := [8, 12, 16, 20]

  // ---------------------------------------------------------------------
  // Geometry
  // ---------------------------------------------------------------------

  /** The square of the source's `distance`: planar, the depth z plays no part. */
  function SqDist(p: Landmark, q: Landmark): (d: real)
    ensures 0.0 <= d
  {
    (p.x - q.x) * (p.x - q.x) + (p.y - q.y) * (p.y - q.y)
  }

  /** The source's `distance`, used only for the payload distances. */
  function Distance(m: MathLib, p: Landmark, q: Landmark): real
  {
    m.sqrt(SqDist(p, q))
  }

  /** The square of `getHandScale`: wrist (0) to middle-finger knuckle (9). */
  function HandScaleSq(h: Hand): real
  {
    SqDist(h[0], h[9])
  }

  /** The squared scale `analyzeGestures` hands to the predicates: that of
      the hand, or 1 (= 1 * 1) for a missing hand. */
  function ScaleSqOr1(h: Option<Hand>): (s: real)
    ensures 0.0 <= s
    ensures h.None? ==> s == 1.0
  {
    match h
    case Some(hand) => HandScaleSq(hand)
    case None => 1.0
  }

  // ---------------------------------------------------------------------
  // Landmark predicates
  // ---------------------------------------------------------------------

  /** `isPinching`: thumb tip (4) and index tip (8) closer than 0.35 scale. */
  predicate Pinching(h: Hand, scaleSq: real)
  {
    SqDist(h[4], h[8]) < PinchFactor * PinchFactor * scaleSq
  }

  /** A tip strictly closer to the wrist than 1.4 scale. */
  predicate Folded(h: Hand, scaleSq: real, tip: int)
    requires 0 <= tip < LandmarkCount
  {
    SqDist(h[tip], h[0]) < FoldFactor * FoldFactor * scaleSq
  }

  /** A tip strictly farther from the wrist than 1.6 scale. */
  predicate Extended(h: Hand, scaleSq: real, tip: int)
    requires 0 <= tip < LandmarkCount
  {
    SqDist(h[tip], h[0]) > ExtendFactor * ExtendFactor * scaleSq
  }

  predicate ValidTips(tips: seq<int>)
  {
    forall i :: 0 <= i < |tips| ==> 0 <= tips[i] < LandmarkCount
  }

  /** How many of `tips` are folded (the source's `foldedCount`). */
  function FoldedCount(h: Hand, scaleSq: real, tips: seq<int>): (n: nat)
    requires ValidTips(tips)
    ensures n <= |tips|
    decreases |tips|
  {
    if tips == [] then 0
    else
      var last := tips[|tips| - 1];
      FoldedCount(h, scaleSq, tips[..|tips| - 1]) + (if Folded(h, scaleSq, last) then 1 else 0)
  }

  /** How many of `tips` are extended (the source's `extendedCount`). */
  function ExtendedCount(h: Hand, scaleSq: real, tips: seq<int>): (n: nat)
    requires ValidTips(tips)
    ensures n <= |tips|
    decreases |tips|
  {
    if tips == [] then 0
    else
      var last := tips[|tips| - 1];
      ExtendedCount(h, scaleSq, tips[..|tips| - 1]) + (if Extended(h, scaleSq, last) then 1 else 0)
  }

  /** `isFist`: at least three of the four tips folded. */
  predicate Fist(h: Hand, scaleSq: real)
  {
    FoldedCount(h, scaleSq, Tips) >= 3
  }

  /** `isOpenPalm`: not pinching, and at least three of the four tips extended. */
  predicate OpenPalm(h: Hand, scaleSq: real)
  {
    !Pinching(h, scaleSq) && ExtendedCount(h, scaleSq, Tips) >= 3
  }

  /** `isFist`, with the source's counting loop over the tips. */
  method IsFist(h: Hand, scaleSq: real) returns (fist: bool)
    ensures fist == Fist(h, scaleSq)
  {
    var foldedCount := 0;
    for i := 0 to |Tips|
      invariant foldedCount == FoldedCount(h, scaleSq, Tips[..i])
    {
      assert Tips[..i + 1][..i] == Tips[..i];
      if SqDist(h[Tips[i]], h[0]) < FoldFactor * FoldFactor * scaleSq {
        foldedCount := foldedCount + 1;
      }
    }
    assert Tips[..|Tips|] == Tips;
    fist := foldedCount >= 3;
  }

  /** `isOpenPalm`, with the early exit on a pinch and the counting loop. */
  method IsOpenPalm(h: Hand, scaleSq: real) returns (open: bool)
    ensures open == OpenPalm(h, scaleSq)
  {
    if Pinching(h, scaleSq) {
      return false;
    }
    var extendedCount := 0;
    for i := 0 to |Tips|
      invariant extendedCount == ExtendedCount(h, scaleSq, Tips[..i])
    {
      assert Tips[..i + 1][..i] == Tips[..i];
      if SqDist(h[Tips[i]], h[0]) > ExtendFactor * ExtendFactor * scaleSq {
        extendedCount := extendedCount + 1;
      }
    }
    assert Tips[..|Tips|] == Tips;
    open := extendedCount >= 3;
  }

  // ---------------------------------------------------------------------
  // Composite gesture
  // ---------------------------------------------------------------------

  /** One detector result: the landmarks of each hand and, per entry, the
      name of its first handedness category ("Left"/"Right" as the camera
      sees it). */
  datatype Detection = Detection(landmarks: seq<Hand>, handedness: seq<string>)

  /** The composite gesture and its payload; `data == None` is the source's null. */
  datatype Analysis = Analysis(gesture: HandGesture, data: Option<HandData>)

  /** Index of the last entry equal to `name`, or -1. */
  function LastIndexOf(labels: seq<string>, name: string): (i: int)
    ensures -1 <= i < |labels|
    ensures 0 <= i ==> labels[i] == name
    ensures forall j :: i < j < |labels| ==> labels[j] != name
    decreases |labels|
  {
    if labels == [] then -1
    else if labels[|labels| - 1] == name then |labels| - 1
    else LastIndexOf(labels[..|labels| - 1], name)
  }

  /** The indices of the user's right and left hand. The image is mirrored:
      the detector's "Left" is the user's right hand and "Right" the left.
      A single hand with neither label is taken as the right hand. */
  function RoleIndices(handCount: nat, handedness: seq<string>): (int, int)
  {
    var rightIdx := LastIndexOf(handedness, "Left");
    var leftIdx := LastIndexOf(handedness, "Right");
    if handCount == 1 && rightIdx == -1 && leftIdx == -1 then (0, -1)
    else (rightIdx, leftIdx)
  }

  /** `idx !== -1 ? hands[idx] : null`; an index past the end reads
      `undefined`, which every later test treats like null. */
  function HandAt(hands: seq<Hand>, idx: int): Option<Hand>
  {
    if 0 <= idx < |hands| then Some(hands[idx]) else None
  }

  /** The right hand's orientation: atan2 of the wrist-to-knuckle vector. */
  function RightAngle(m: MathLib, rh: Hand): real
  {
    m.atan2(rh[9].y - rh[0].y, rh[9].x - rh[0].x)
  }

  predicate RightOpen(rh: Option<Hand>)
  {
    rh.Some? && OpenPalm(rh.value, ScaleSqOr1(rh))
  }

  predicate LeftOpen(lh: Option<Hand>)
  {
    lh.Some? && OpenPalm(lh.value, ScaleSqOr1(lh))
  }

  predicate RightPinch(rh: Option<Hand>)
  {
    rh.Some? && Pinching(rh.value, ScaleSqOr1(rh))
  }

  predicate LeftPinch(lh: Option<Hand>)
  {
    lh.Some? && Pinching(lh.value, ScaleSqOr1(lh))
  }

  predicate RightFist(rh: Option<Hand>)
  {
    rh.Some? && Fist(rh.value, ScaleSqOr1(rh))
  }

  /** The chain of conditional returns of `analyzeGestures`, given the
      right hand `rh` and the left hand `lh`. */
  function Decide(rh: Option<Hand>, lh: Option<Hand>, m: MathLib): (a: Analysis)
    ensures a.gesture == PalmBoth ==> a.data.Some? && a.data.value.distance.Some?
  {
    if RightOpen(rh) && LeftOpen(lh) then
      Analysis(PalmBoth, Some(HandData(None, None, Some(Distance(m, rh.value[9], lh.value[9])), None)))
    else if RightPinch(rh) && LeftPinch(lh) then
      Analysis(PinchBoth, Some(HandData(None, None, Some(Distance(m, rh.value[4], lh.value[4])), None)))
    else if LeftPinch(lh) then
      Analysis(PinchLeft, Some(HandData(Some(lh.value[4].x), Some(lh.value[4].y), None, None)))
    else if rh.Some? then
      var r := rh.value;
      var basicData := HandData(Some(r[9].x), Some(r[9].y), None, Some(RightAngle(m, r)));
      if RightPinch(rh) then
        Analysis(PinchRight, Some(basicData.(x := Some(r[4].x), y := Some(r[4].y))))
      else if RightFist(rh) then
        Analysis(FistRight, Some(basicData))
      else if RightOpen(rh) then
        Analysis(OpenPalmRight, Some(basicData))
      else
        Analysis(NoGesture, Some(basicData))
    else
      Analysis(NoGesture, None)
  }

  /** `analyzeGestures` as a function of the detector result. */
  function Resolve(det: Detection, m: MathLib): (a: Analysis)
    ensures a.gesture == PalmBoth ==> a.data.Some? && a.data.value.distance.Some?
  {
    if |det.landmarks| == 0 then Analysis(NoGesture, None)
    else
      var (rightIdx, leftIdx) := RoleIndices(|det.landmarks|, det.handedness);
      Decide(HandAt(det.landmarks, rightIdx), HandAt(det.landmarks, leftIdx), m)
  }

  /** `analyzeGestures`: the loop over the handedness labels, then the chain
      of conditional returns. */
  method AnalyzeGestures(det: Detection, m: MathLib) returns (a: Analysis)
    ensures a == Resolve(det, m)
  {
    var hands := det.landmarks;
    var handedness := det.handedness;
    if |hands| == 0 {
      return Analysis(NoGesture, None);
    }
    var rightHandIdx, leftHandIdx := -1, -1;
    for i := 0 to |handedness|
      invariant rightHandIdx == LastIndexOf(handedness[..i], "Left")
      invariant leftHandIdx == LastIndexOf(handedness[..i], "Right")
    {
      assert handedness[..i + 1][..i] == handedness[..i];
      var categoryName := handedness[i];
      if categoryName == "Left" {
        rightHandIdx := i;
      }
      if categoryName == "Right" {
        leftHandIdx := i;
      }
    }
    assert handedness[..|handedness|] == handedness;
    if |hands| == 1 && rightHandIdx == -1 && leftHandIdx == -1 {
      rightHandIdx := 0;
    }
    var rh := HandAt(hands, rightHandIdx);
    var lh := HandAt(hands, leftHandIdx);
    var rhScale := ScaleSqOr1(rh);
    var lhScale := ScaleSqOr1(lh);
    var rightAngle := 0.0;
    if rh.Some? {
      rightAngle := RightAngle(m, rh.value);
    }

    var rightOpen, leftOpen := false, false;
    if rh.Some? {
      rightOpen := IsOpenPalm(rh.value, rhScale);
    }
    if lh.Some? {
      leftOpen := IsOpenPalm(lh.value, lhScale);
    }
    if rightOpen && leftOpen {
      var dist := Distance(m, rh.value[9], lh.value[9]);
      return Analysis(PalmBoth, Some(HandData(None, None, Some(dist), None)));
    }

    var rightPinch := rh.Some? && Pinching(rh.value, rhScale);
    var leftPinch := lh.Some? && Pinching(lh.value, lhScale);
    if rightPinch && leftPinch {
      var dist := Distance(m, rh.value[4], lh.value[4]);
      return Analysis(PinchBoth, Some(HandData(None, None, Some(dist), None)));
    }
    if leftPinch {
      return Analysis(PinchLeft, Some(HandData(Some(lh.value[4].x), Some(lh.value[4].y), None, None)));
    }
    if rh.Some? {
      var r := rh.value;
      var basicData := HandData(Some(r[9].x), Some(r[9].y), None, Some(rightAngle));
      if rightPinch {
        return Analysis(PinchRight, Some(basicData.(x := Some(r[4].x), y := Some(r[4].y))));
      }
      var fist := IsFist(r, rhScale);
      if fist {
        return Analysis(FistRight, Some(basicData));
      }
      if rightOpen {
        return Analysis(OpenPalmRight, Some(basicData));
      }
      return Analysis(NoGesture, Some(basicData));
    }
    return Analysis(NoGesture, None);
  }
}
