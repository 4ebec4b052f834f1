/** Properties of the hand classifier and composite-gesture resolver of
    services/gestureService.ts: the squared thresholds agree with the
    square-root ones, the predicates are invariant under similarity
    (uniform scaling, translation, depth), fist and open palm exclude each
    other, handedness is mirrored, and the precedence chain is a fixed
    ordered list of rules. */
module GestureProperties {
  import opened Types
  import opened GestureService

  // ---------------------------------------------------------------------
  // Square roots: comparing squares is comparing distances
  // ---------------------------------------------------------------------

  lemma MulNonneg(x: real, y: real)
    requires 0.0 <= x && 0.0 <= y
    ensures 0.0 <= x * y
  {
  }

  /** For non-negative reals, `<` on the values is `<` on their squares. */
  lemma SquaresOrdered(a: real, b: real)
    requires 0.0 <= a && 0.0 <= b
    ensures a < b <==> a * a < b * b
  {
    assert b * b - a * a == (b - a) * (b + a);
    if a < b {
      assert 0.0 < b + a;
      assert 0.0 < (b - a) * (b + a);
    } else {
      MulNonneg(a - b, a + b);
    }
  }

  /** `sqrt(D) < k * sqrt(S)` exactly when `D < k * k * S`, and likewise
      for `>`: the source's comparisons of square roots can be made on
      squared distances. */
  lemma ThresholdBySquares(m: MathLib, d: real, s: real, k: real)
    requires Lawful(m)
    requires 0.0 <= d && 0.0 <= s && 0.0 < k
    ensures m.sqrt(d) < k * m.sqrt(s) <==> d < k * k * s
    ensures m.sqrt(d) > k * m.sqrt(s) <==> d > k * k * s
  {
    var a, b := m.sqrt(d), k * m.sqrt(s);
    assert a * a == d;
    assert b * b == k * k * (m.sqrt(s) * m.sqrt(s));
    assert b * b == k * k * s;
    SquaresOrdered(a, b);
    SquaresOrdered(b, a);
  }

  /** `isPinching(landmarks, scale)` as written, with square roots. */
  predicate PinchingAsWritten(m: MathLib, h: Hand, scale: real)
  {
    Distance(m, h[4], h[8]) < PinchFactor * scale
  }

  /** The fold test of `isFist` for one tip, as written. */
  predicate FoldedAsWritten(m: MathLib, h: Hand, scale: real, tip: int)
    requires 0 <= tip < LandmarkCount
  {
    Distance(m, h[tip], h[0]) < FoldFactor * scale
  }

  /** The extension test of `isOpenPalm` for one tip, as written. */
  predicate ExtendedAsWritten(m: MathLib, h: Hand, scale: real, tip: int)
    requires 0 <= tip < LandmarkCount
  {
    Distance(m, h[tip], h[0]) > ExtendFactor * scale
  }

  /** The squared predicates agree with the source's square-root tests for
      every non-negative scale; in particular for the scale `getHandScale`
      computes (whose square is HandScaleSq) and for the default scale 1. */
  lemma SquaredThresholdsAgree(m: MathLib, h: Hand, scale: real, tip: int)
    requires Lawful(m)
    requires 0.0 <= scale
    requires 0 <= tip < LandmarkCount
    ensures PinchingAsWritten(m, h, scale) == Pinching(h, scale * scale)
    ensures FoldedAsWritten(m, h, scale, tip) == Folded(h, scale * scale, tip)
    ensures ExtendedAsWritten(m, h, scale, tip) == Extended(h, scale * scale, tip)
    ensures m.sqrt(HandScaleSq(h)) * m.sqrt(HandScaleSq(h)) == HandScaleSq(h)
  {
    assert m.sqrt(scale * scale) * m.sqrt(scale * scale) == scale * scale;
    SquaresOrdered(m.sqrt(scale * scale), scale);
    SquaresOrdered(scale, m.sqrt(scale * scale));
    assert m.sqrt(scale * scale) == scale;
    ThresholdBySquares(m, SqDist(h[4], h[8]), scale * scale, PinchFactor);
    ThresholdBySquares(m, SqDist(h[tip], h[0]), scale * scale, FoldFactor);
    ThresholdBySquares(m, SqDist(h[tip], h[0]), scale * scale, ExtendFactor);
  }

  // ---------------------------------------------------------------------
  // Fist and open palm
  // ---------------------------------------------------------------------

  function Ind(b: bool): nat
  {
    if b then 1 else 0
  }

  lemma FoldedCountOfTips(h: Hand, s: real)
    ensures FoldedCount(h, s, Tips) ==
      Ind(Folded(h, s, 8)) + Ind(Folded(h, s, 12)) + Ind(Folded(h, s, 16)) + Ind(Folded(h, s, 20))
    ensures ExtendedCount(h, s, Tips) ==
      Ind(Extended(h, s, 8)) + Ind(Extended(h, s, 12)) + Ind(Extended(h, s, 16)) + Ind(Extended(h, s, 20))
  {
    var t1, t2, t3 := [8], [8, 12], [8, 12, 16];
    assert Tips[..3] == t3 && t3[..2] == t2 && t2[..1] == t1 && t1[..0] == [];
    assert FoldedCount(h, s, t1) == Ind(Folded(h, s, 8));
    assert FoldedCount(h, s, t2) == FoldedCount(h, s, t1) + Ind(Folded(h, s, 12));
    assert FoldedCount(h, s, t3) == FoldedCount(h, s, t2) + Ind(Folded(h, s, 16));
    assert FoldedCount(h, s, Tips) == FoldedCount(h, s, t3) + Ind(Folded(h, s, 20));
    assert ExtendedCount(h, s, t1) == Ind(Extended(h, s, 8));
    assert ExtendedCount(h, s, t2) == ExtendedCount(h, s, t1) + Ind(Extended(h, s, 12));
    assert ExtendedCount(h, s, t3) == ExtendedCount(h, s, t2) + Ind(Extended(h, s, 16));
    assert ExtendedCount(h, s, Tips) == ExtendedCount(h, s, t3) + Ind(Extended(h, s, 20));
  }

  /** `isFist` holds iff some three of the four tips 8, 12, 16, 20 are folded. */
  lemma FistIffThreeFolded(h: Hand, s: real)
    ensures Fist(h, s) <==>
      (Folded(h, s, 8) && Folded(h, s, 12) && Folded(h, s, 16)) ||
      (Folded(h, s, 8) && Folded(h, s, 12) && Folded(h, s, 20)) ||
      (Folded(h, s, 8) && Folded(h, s, 16) && Folded(h, s, 20)) ||
      (Folded(h, s, 12) && Folded(h, s, 16) && Folded(h, s, 20))
  {
    FoldedCountOfTips(h, s);
  }

  /** `isOpenPalm` holds iff the hand is not pinching and some three of
      the four tips are extended. */
  lemma OpenPalmIffThreeExtended(h: Hand, s: real)
    ensures OpenPalm(h, s) <==>
      !Pinching(h, s) &&
      ((Extended(h, s, 8) && Extended(h, s, 12) && Extended(h, s, 16)) ||
       (Extended(h, s, 8) && Extended(h, s, 12) && Extended(h, s, 20)) ||
       (Extended(h, s, 8) && Extended(h, s, 16) && Extended(h, s, 20)) ||
       (Extended(h, s, 12) && Extended(h, s, 16) && Extended(h, s, 20)))
  {
    FoldedCountOfTips(h, s);
  }

  /** No tip is both folded and extended, so the two counts share the tips. */
  lemma {:induction false} CountsShareTips(h: Hand, s: real, tips: seq<int>)
    requires ValidTips(tips)
    requires 0.0 <= s
    ensures FoldedCount(h, s, tips) + ExtendedCount(h, s, tips) <= |tips|
    decreases |tips|
  {
    if tips != [] {
      var last := tips[|tips| - 1];
      CountsShareTips(h, s, tips[..|tips| - 1]);
      assert FoldFactor * FoldFactor * s <= ExtendFactor * ExtendFactor * s;
      assert !(Folded(h, s, last) && Extended(h, s, last));
    }
  }

  /** For one hand and a non-negative squared scale, `isFist` and
      `isOpenPalm` never both hold. */
  lemma FistExcludesOpenPalm(h: Hand, s: real)
    requires 0.0 <= s
    ensures !(Fist(h, s) && OpenPalm(h, s))
  {
    CountsShareTips(h, s, Tips);
  }

  /** An open palm is never pinching. */
  lemma OpenPalmExcludesPinch(h: Hand, s: real)
    ensures OpenPalm(h, s) ==> !Pinching(h, s)
  {
  }

  // ---------------------------------------------------------------------
  // Similarity invariance
  // ---------------------------------------------------------------------

  /** `h2` is `h1` with every squared planar distance multiplied by c > 0. */
  ghost predicate Similar(h1: Hand, h2: Hand, c: real)
  {
    0.0 < c &&
    forall i, j :: 0 <= i < LandmarkCount && 0 <= j < LandmarkCount ==>
      SqDist(h2[i], h2[j]) == c * SqDist(h1[i], h1[j])
  }

  lemma ScaledBelow(c: real, a: real, b: real)
    requires 0.0 < c
    ensures c * a < c * b <==> a < b
    ensures c * a > c * b <==> a > b
  {
    assert c * b - c * a == c * (b - a);
    if a < b { assert 0.0 < c * (b - a); }
    if a > b { assert 0.0 < c * (a - b); }
  }

  /** A threshold test `d < k * s` (or `>`) keeps its answer when both the
      distance and the scale are multiplied by c > 0. */
  lemma ThresholdScaled(c: real, d: real, s: real, k: real)
    requires 0.0 < c
    ensures c * d < k * (c * s) <==> d < k * s
    ensures c * d > k * (c * s) <==> d > k * s
  {
    assert k * (c * s) == c * (k * s);
    ScaledBelow(c, d, k * s);
  }

  /** Each tip test, at the hand's own scale, agrees on hands whose wrist
      distances and scales are in the same ratio c > 0. */
  lemma TipScaled(h1: Hand, h2: Hand, c: real, t: int)
    requires 0.0 < c
    requires 0 <= t < LandmarkCount
    requires HandScaleSq(h2) == c * HandScaleSq(h1)
    requires SqDist(h2[t], h2[0]) == c * SqDist(h1[t], h1[0])
    ensures Folded(h2, HandScaleSq(h2), t) == Folded(h1, HandScaleSq(h1), t)
    ensures Extended(h2, HandScaleSq(h2), t) == Extended(h1, HandScaleSq(h1), t)
  {
    var s1, d1 := HandScaleSq(h1), SqDist(h1[t], h1[0]);
    ThresholdScaled(c, d1, s1, FoldFactor * FoldFactor);
    ThresholdScaled(c, d1, s1, ExtendFactor * ExtendFactor);
  }

  /** Counts over the same tips agree when every tip test agrees. */
  lemma {:induction false} CountsAgree(h1: Hand, s1: real, h2: Hand, s2: real, tips: seq<int>)
    requires ValidTips(tips)
    requires forall i :: 0 <= i < |tips| ==>
      Folded(h2, s2, tips[i]) == Folded(h1, s1, tips[i]) &&
      Extended(h2, s2, tips[i]) == Extended(h1, s1, tips[i])
    ensures FoldedCount(h2, s2, tips) == FoldedCount(h1, s1, tips)
    ensures ExtendedCount(h2, s2, tips) == ExtendedCount(h1, s1, tips)
    decreases |tips|
  {
    if tips != [] {
      CountsAgree(h1, s1, h2, s2, tips[..|tips| - 1]);
      assert Folded(h2, s2, tips[|tips| - 1]) == Folded(h1, s1, tips[|tips| - 1]);
      assert Extended(h2, s2, tips[|tips| - 1]) == Extended(h1, s1, tips[|tips| - 1]);
    }
  }

  /** The pinch test, at the hand's own scale, agrees on hands whose
      pinch distances and scales are in the same ratio c > 0. */
  lemma PinchScaled(h1: Hand, h2: Hand, c: real)
    requires 0.0 < c
    requires HandScaleSq(h2) == c * HandScaleSq(h1)
    requires SqDist(h2[4], h2[8]) == c * SqDist(h1[4], h1[8])
    ensures Pinching(h2, HandScaleSq(h2)) == Pinching(h1, HandScaleSq(h1))
  {
    ThresholdScaled(c, SqDist(h1[4], h1[8]), HandScaleSq(h1), PinchFactor * PinchFactor);
  }

  /** The squared distances the classifier looks at, in ratio c > 0. */
  ghost predicate RatioOnTests(h1: Hand, h2: Hand, c: real)
  {
    0.0 < c &&
    HandScaleSq(h2) == c * HandScaleSq(h1) &&
    SqDist(h2[4], h2[8]) == c * SqDist(h1[4], h1[8]) &&
    forall i :: 0 <= i < |Tips| ==> SqDist(h2[Tips[i]], h2[0]) == c * SqDist(h1[Tips[i]], h1[0])
  }

  lemma SimilarRatioOnTests(h1: Hand, h2: Hand, c: real)
    requires Similar(h1, h2, c)
    ensures RatioOnTests(h1, h2, c)
  {
  }

  /** Each hand predicate, evaluated at the hand's own scale, gives the same
      answer on hands whose tested distances are in one ratio. */
  lemma ClassificationRatio(h1: Hand, h2: Hand, c: real)
    requires RatioOnTests(h1, h2, c)
    ensures Pinching(h2, HandScaleSq(h2)) == Pinching(h1, HandScaleSq(h1))
    ensures Fist(h2, HandScaleSq(h2)) == Fist(h1, HandScaleSq(h1))
    ensures OpenPalm(h2, HandScaleSq(h2)) == OpenPalm(h1, HandScaleSq(h1))
  {
    var s1 := HandScaleSq(h1);
    PinchScaled(h1, h2, c);
    forall i | 0 <= i < |Tips|
      ensures Folded(h2, HandScaleSq(h2), Tips[i]) == Folded(h1, s1, Tips[i])
      ensures Extended(h2, HandScaleSq(h2), Tips[i]) == Extended(h1, s1, Tips[i])
    {
      TipScaled(h1, h2, c, Tips[i]);
    }
    CountsAgree(h1, s1, h2, HandScaleSq(h2), Tips);
  }

  /** Each hand predicate, evaluated at the hand's own scale, gives the same
      answer on similar hands. */
  lemma ClassificationSimilar(h1: Hand, h2: Hand, c: real)
    requires Similar(h1, h2, c)
    ensures Pinching(h2, HandScaleSq(h2)) == Pinching(h1, HandScaleSq(h1))
    ensures Fist(h2, HandScaleSq(h2)) == Fist(h1, HandScaleSq(h1))
    ensures OpenPalm(h2, HandScaleSq(h2)) == OpenPalm(h1, HandScaleSq(h1))
  {
    SimilarRatioOnTests(h1, h2, c);
    ClassificationRatio(h1, h2, c);
  }

  function MapHand(h: Hand, f: Landmark -> Landmark): Hand
  {
    seq(LandmarkCount, i requires 0 <= i < LandmarkCount => f(h[i]))
  }

  /** Every coordinate multiplied by k. */
  function ScaleHand(h: Hand, k: real): Hand
  {
    MapHand(h, (p: Landmark) => Landmark(k * p.x, k * p.y, k * p.z))
  }

  /** Every landmark moved by (dx, dy, dz). */
  function TranslateHand(h: Hand, dx: real, dy: real, dz: real): Hand
  {
    MapHand(h, (p: Landmark) => Landmark(p.x + dx, p.y + dy, p.z + dz))
  }

  /** Every depth replaced by the matching entry of `zs`. */
  function WithDepths(h: Hand, zs: seq<real>): Hand
    requires |zs| == LandmarkCount
  {
    seq(LandmarkCount, i requires 0 <= i < LandmarkCount => Landmark(h[i].x, h[i].y, zs[i]))
  }

  lemma SqDistScaled(p: Landmark, q: Landmark, k: real)
    ensures SqDist(Landmark(k * p.x, k * p.y, k * p.z), Landmark(k * q.x, k * q.y, k * q.z))
         == k * k * SqDist(p, q)
  {
    var ex, ey := p.x - q.x, p.y - q.y;
    var p2, q2 := Landmark(k * p.x, k * p.y, k * p.z), Landmark(k * q.x, k * q.y, k * q.z);
    var kk := k * k;
    calc {
      SqDist(p2, q2);
      (k * ex) * (k * ex) + (k * ey) * (k * ey);
      { assert (k * ex) * (k * ex) == kk * (ex * ex); assert (k * ey) * (k * ey) == kk * (ey * ey); }
      kk * (ex * ex) + kk * (ey * ey);
      kk * (ex * ex + ey * ey);
      kk * SqDist(p, q);
    }
  }

  lemma ScaledIsSimilar(h: Hand, k: real)
    requires 0.0 < k
    ensures Similar(h, ScaleHand(h, k), k * k)
  {
    var h2 := ScaleHand(h, k);
    forall i, j | 0 <= i < LandmarkCount && 0 <= j < LandmarkCount
      ensures SqDist(h2[i], h2[j]) == k * k * SqDist(h[i], h[j])
    {
      assert h2[i] == Landmark(k * h[i].x, k * h[i].y, k * h[i].z);
      assert h2[j] == Landmark(k * h[j].x, k * h[j].y, k * h[j].z);
      SqDistScaled(h[i], h[j], k);
    }
  }

  lemma TranslatedIsSimilar(h: Hand, dx: real, dy: real, dz: real)
    ensures Similar(h, TranslateHand(h, dx, dy, dz), 1.0)
  {
    var h2 := TranslateHand(h, dx, dy, dz);
    forall i, j | 0 <= i < LandmarkCount && 0 <= j < LandmarkCount
      ensures SqDist(h2[i], h2[j]) == 1.0 * SqDist(h[i], h[j])
    {
      assert h2[i].x - h2[j].x == h[i].x - h[j].x;
      assert h2[i].y - h2[j].y == h[i].y - h[j].y;
    }
  }

  /** Uniformly scaling a hand by k > 0 changes none of its predicates. */
  lemma ClassificationScaleInvariant(h: Hand, k: real)
    requires 0.0 < k
    ensures Pinching(ScaleHand(h, k), HandScaleSq(ScaleHand(h, k))) == Pinching(h, HandScaleSq(h))
    ensures Fist(ScaleHand(h, k), HandScaleSq(ScaleHand(h, k))) == Fist(h, HandScaleSq(h))
    ensures OpenPalm(ScaleHand(h, k), HandScaleSq(ScaleHand(h, k))) == OpenPalm(h, HandScaleSq(h))
  {
    ScaledIsSimilar(h, k);
    ClassificationSimilar(h, ScaleHand(h, k), k * k);
  }

  /** Translating a hand changes none of its predicates. */
  lemma ClassificationTranslationInvariant(h: Hand, dx: real, dy: real, dz: real)
    ensures Pinching(TranslateHand(h, dx, dy, dz), HandScaleSq(TranslateHand(h, dx, dy, dz))) == Pinching(h, HandScaleSq(h))
    ensures Fist(TranslateHand(h, dx, dy, dz), HandScaleSq(TranslateHand(h, dx, dy, dz))) == Fist(h, HandScaleSq(h))
    ensures OpenPalm(TranslateHand(h, dx, dy, dz), HandScaleSq(TranslateHand(h, dx, dy, dz))) == OpenPalm(h, HandScaleSq(h))
  {
    TranslatedIsSimilar(h, dx, dy, dz);
    ClassificationSimilar(h, TranslateHand(h, dx, dy, dz), 1.0);
  }

  /** The right/left hand slots of a detection with every hand replaced by
      a similar one hold similar hands. */
  ghost predicate SimilarSlot(a: Option<Hand>, b: Option<Hand>)
  {
    (a.None? && b.None?) || (a.Some? && b.Some? && exists c :: Similar(a.value, b.value, c))
  }

  /** Two detections with the same labels whose hands are pairwise similar. */
  ghost predicate SimilarDetections(d1: Detection, d2: Detection)
  {
    d1.handedness == d2.handedness &&
    |d1.landmarks| == |d2.landmarks| &&
    forall i :: 0 <= i < |d1.landmarks| ==> exists c :: Similar(d1.landmarks[i], d2.landmarks[i], c)
  }

  lemma DecideGestureSimilar(r1: Option<Hand>, l1: Option<Hand>, r2: Option<Hand>, l2: Option<Hand>, m: MathLib)
    requires SimilarSlot(r1, r2) && SimilarSlot(l1, l2)
    ensures Decide(r2, l2, m).gesture == Decide(r1, l1, m).gesture
  {
    if r1.Some? {
      var c :| Similar(r1.value, r2.value, c);
      ClassificationSimilar(r1.value, r2.value, c);
    }
    if l1.Some? {
      var c :| Similar(l1.value, l2.value, c);
      ClassificationSimilar(l1.value, l2.value, c);
    }
  }

  /** The composite gesture depends only on the shape of each hand: replacing
      every hand by a similar one (scaled by any k > 0, translated, or
      moved in depth) with the same labels leaves the gesture unchanged. */
  lemma ResolveGestureSimilar(d1: Detection, d2: Detection, m: MathLib)
    requires SimilarDetections(d1, d2)
    ensures Resolve(d2, m).gesture == Resolve(d1, m).gesture
  {
    if |d1.landmarks| > 0 {
      var (ri, li) := RoleIndices(|d1.landmarks|, d1.handedness);
      DecideGestureSimilar(HandAt(d1.landmarks, ri), HandAt(d1.landmarks, li),
                           HandAt(d2.landmarks, ri), HandAt(d2.landmarks, li), m);
    }
  }

  /** Two hands that agree on every x and y (the depths may differ). */
  ghost predicate SamePlanar(h1: Hand, h2: Hand)
  {
    forall i :: 0 <= i < LandmarkCount ==> h1[i].x == h2[i].x && h1[i].y == h2[i].y
  }

  lemma SlotPredicatesAgree(a: Option<Hand>, b: Option<Hand>)
    requires SamePlanarSlot(a, b)
    ensures ScaleSqOr1(a) == ScaleSqOr1(b)
    ensures RightOpen(a) == RightOpen(b) && LeftOpen(a) == LeftOpen(b)
    ensures RightPinch(a) == RightPinch(b) && LeftPinch(a) == LeftPinch(b)
    ensures RightFist(a) == RightFist(b)
  {
    if a.Some? {
      assert Similar(a.value, b.value, 1.0) by {
        forall i, j | 0 <= i < LandmarkCount && 0 <= j < LandmarkCount
          ensures SqDist(b.value[i], b.value[j]) == 1.0 * SqDist(a.value[i], a.value[j])
        {
        }
      }
      ClassificationSimilar(a.value, b.value, 1.0);
    }
  }

  ghost predicate SamePlanarSlot(a: Option<Hand>, b: Option<Hand>)
  {
    (a.None? && b.None?) || (a.Some? && b.Some? && SamePlanar(a.value, b.value))
  }

  /** The right hand's payload fields agree on hands with the same x and y. */
  lemma RightPayloadIgnoresDepth(r1: Hand, r2: Hand, m: MathLib)
    requires SamePlanar(r1, r2)
    ensures RightAngle(m, r1) == RightAngle(m, r2)
    ensures r1[9].x == r2[9].x && r1[9].y == r2[9].y
    ensures r1[4].x == r2[4].x && r1[4].y == r2[4].y
  {
  }

  /** The two-hand distances agree on hands with the same x and y. */
  lemma PairDistancesIgnoreDepth(r1: Hand, l1: Hand, r2: Hand, l2: Hand, m: MathLib)
    requires SamePlanar(r1, r2) && SamePlanar(l1, l2)
    ensures Distance(m, r1[9], l1[9]) == Distance(m, r2[9], l2[9])
    ensures Distance(m, r1[4], l1[4]) == Distance(m, r2[4], l2[4])
    ensures l1[4].x == l2[4].x && l1[4].y == l2[4].y
  {
    assert r1[9].x == r2[9].x && r1[9].y == r2[9].y && l1[9].x == l2[9].x && l1[9].y == l2[9].y;
    assert r1[4].x == r2[4].x && r1[4].y == r2[4].y && l1[4].x == l2[4].x && l1[4].y == l2[4].y;
    assert SqDist(r1[9], l1[9]) == SqDist(r2[9], l2[9]);
    assert SqDist(r1[4], l1[4]) == SqDist(r2[4], l2[4]);
  }

  lemma DecideIgnoresDepth(r1: Option<Hand>, l1: Option<Hand>, r2: Option<Hand>, l2: Option<Hand>, m: MathLib)
    requires SamePlanarSlot(r1, r2) && SamePlanarSlot(l1, l2)
    ensures Decide(r2, l2, m) == Decide(r1, l1, m)
  {
    SlotPredicatesAgree(r1, r2);
    SlotPredicatesAgree(l1, l2);
    if r1.Some? {
      RightPayloadIgnoresDepth(r1.value, r2.value, m);
    }
    if l1.Some? {
      assert l1.value[4].x == l2.value[4].x && l1.value[4].y == l2.value[4].y;
    }
    if r1.Some? && l1.Some? {
      PairDistancesIgnoreDepth(r1.value, l1.value, r2.value, l2.value, m);
    }
  }

  /** Depth never matters: detections that differ only in the z of their
      landmarks give the same gesture AND the same payload. */
  lemma ResolveIgnoresDepth(d1: Detection, d2: Detection, m: MathLib)
    requires d1.handedness == d2.handedness && |d1.landmarks| == |d2.landmarks|
    requires forall i :: 0 <= i < |d1.landmarks| ==> SamePlanar(d1.landmarks[i], d2.landmarks[i])
    ensures Resolve(d2, m) == Resolve(d1, m)
  {
    if |d1.landmarks| > 0 {
      var (ri, li) := RoleIndices(|d1.landmarks|, d1.handedness);
      DecideIgnoresDepth(HandAt(d1.landmarks, ri), HandAt(d1.landmarks, li),
                         HandAt(d2.landmarks, ri), HandAt(d2.landmarks, li), m);
    }
  }

  // ---------------------------------------------------------------------
  // Handedness
  // ---------------------------------------------------------------------

  /** The camera image is mirrored: the user's right hand is the last one
      the detector labels "Left", the left hand the last one labelled
      "Right"; a single hand without either label counts as the right hand,
      and with two or more unlabelled hands neither role is filled. */
  lemma RolesAreMirrored(n: nat, labels: seq<string>)
    ensures var (r, l) := RoleIndices(n, labels);
      ("Left" in labels ==> 0 <= r && labels[r] == "Left" &&
                            forall j :: r < j < |labels| ==> labels[j] != "Left") &&
      ("Right" in labels ==> 0 <= l && labels[l] == "Right" &&
                             forall j :: l < j < |labels| ==> labels[j] != "Right") &&
      ("Left" !in labels && "Right" !in labels ==> l == -1 && (r == 0 <==> n == 1) && (r != 0 ==> r == -1)) &&
      ("Left" !in labels && "Right" in labels ==> r == -1) &&
      ("Right" !in labels ==> l == -1)
  {
    var li := LastIndexOf(labels, "Left");
    var ri := LastIndexOf(labels, "Right");
    if "Left" in labels {
      var k :| 0 <= k < |labels| && labels[k] == "Left";
      assert 0 <= li;
    } else {
      assert li == -1;
    }
    if "Right" in labels {
      var k :| 0 <= k < |labels| && labels[k] == "Right";
      assert 0 <= ri;
    } else {
      assert ri == -1;
    }
  }

  /** No hands: NONE with null data. */
  lemma NoHandsResolveToNone(det: Detection, m: MathLib)
    requires |det.landmarks| == 0
    ensures Resolve(det, m) == Analysis(NoGesture, None)
  {
  }

  // ---------------------------------------------------------------------
  // Precedence
  // ---------------------------------------------------------------------

  /** The first rule whose condition holds, or NONE. */
  function FirstMatch(rules: seq<(bool, HandGesture)>): (g: HandGesture)
    ensures g == NoGesture || exists i :: 0 <= i < |rules| && rules[i] == (true, g)
  {
    if rules == [] then NoGesture
    else if rules[0].0 then rules[0].1
    else
      var g := FirstMatch(rules[1..]);
      assert g != NoGesture ==> exists i :: 0 <= i < |rules[1..]| && rules[1..][i] == (true, g);
      g
  }

  /** The resolver's precedence as data, highest first:
      PALM_BOTH > PINCH_BOTH > PINCH_LEFT > PINCH_RIGHT > FIST_RIGHT >
      OPEN_PALM_RIGHT, and NONE when no rule applies. */
  function PrecedenceRules(rh: Option<Hand>, lh: Option<Hand>): seq<(bool, HandGesture)>
  {
    [ (RightOpen(rh) && LeftOpen(lh), PalmBoth),
      (RightPinch(rh) && LeftPinch(lh), PinchBoth),
      (LeftPinch(lh), PinchLeft),
      (RightPinch(rh), PinchRight),
      (RightFist(rh), FistRight),
      (RightOpen(rh), OpenPalmRight) ]
  }

  /** The chain of conditional returns picks exactly the first rule of the
      ordered list that applies. */
  lemma DecideFollowsPrecedence(rh: Option<Hand>, lh: Option<Hand>, m: MathLib)
    ensures Decide(rh, lh, m).gesture == FirstMatch(PrecedenceRules(rh, lh))
  {
    var r := PrecedenceRules(rh, lh);
    var r1, r2, r3, r4, r5 := r[1..], r[2..], r[3..], r[4..], r[5..];
    assert r5[1..] == [] && r4[1..] == r5 && r3[1..] == r4 && r2[1..] == r3 && r1[1..] == r2;
    assert FirstMatch(r5) == if r[5].0 then OpenPalmRight else NoGesture;
    assert FirstMatch(r4) == if r[4].0 then FistRight else FirstMatch(r5);
    assert FirstMatch(r3) == if r[3].0 then PinchRight else FirstMatch(r4);
    assert FirstMatch(r2) == if r[2].0 then PinchLeft else FirstMatch(r3);
    assert FirstMatch(r1) == if r[1].0 then PinchBoth else FirstMatch(r2);
  }

  /** Two pinching hands give PINCH_BOTH, never PINCH_LEFT (a pinching
      hand is never an open palm, so PALM_BOTH cannot apply). */
  lemma TwoPinchesGivePinchBoth(rh: Option<Hand>, lh: Option<Hand>, m: MathLib)
    requires RightPinch(rh) && LeftPinch(lh)
    ensures Decide(rh, lh, m).gesture == PinchBoth
  {
    assert !RightOpen(rh);
  }

  /** A pinching right hand never gives FIST_RIGHT or OPEN_PALM_RIGHT. */
  lemma RightPinchOutranksFist(rh: Option<Hand>, lh: Option<Hand>, m: MathLib)
    requires RightPinch(rh)
    ensures Decide(rh, lh, m).gesture in {PinchBoth, PinchLeft, PinchRight}
  {
    assert !RightOpen(rh);
  }

  // ---------------------------------------------------------------------
  // Payload shape
  // ---------------------------------------------------------------------

  /** What each composite gesture carries. PALM_BOTH: only the distance of
      the two knuckles (9); PINCH_BOTH: only the distance of the two thumb
      tips (4); PINCH_LEFT: only the left thumb tip's x and y; every
      right-hand result: the right hand's angle; a lone left hand that does
      not pinch: NONE with null data. */
  lemma DecidePayload(rh: Option<Hand>, lh: Option<Hand>, m: MathLib)
    ensures var a := Decide(rh, lh, m);
      (a.gesture == PalmBoth ==>
        rh.Some? && lh.Some? &&
        a.data == Some(HandData(None, None, Some(Distance(m, rh.value[9], lh.value[9])), None))) &&
      (a.gesture == PinchBoth ==>
        rh.Some? && lh.Some? &&
        a.data == Some(HandData(None, None, Some(Distance(m, rh.value[4], lh.value[4])), None))) &&
      (a.gesture == PinchLeft ==>
        lh.Some? &&
        a.data == Some(HandData(Some(lh.value[4].x), Some(lh.value[4].y), None, None))) &&
      (a.gesture in {PinchRight, FistRight, OpenPalmRight} ==>
        rh.Some? && a.data.Some? &&
        a.data.value.angle == Some(RightAngle(m, rh.value)) && a.data.value.distance.None?) &&
      (a.gesture == PinchRight ==> a.data.value.x == Some(rh.value[4].x) && a.data.value.y == Some(rh.value[4].y)) &&
      (a.gesture in {FistRight, OpenPalmRight} ==> a.data.value.x == Some(rh.value[9].x) && a.data.value.y == Some(rh.value[9].y)) &&
      (rh.None? && !LeftPinch(lh) ==> a == Analysis(NoGesture, None)) &&
      (rh.Some? && a.gesture == NoGesture ==> a.data == Some(HandData(Some(rh.value[9].x), Some(rh.value[9].y), None, Some(RightAngle(m, rh.value)))))
  {
  }

  /** With a lawful atan2 every angle the resolver reports lies in [-pi, pi]. */
  lemma ResolveAngleInRange(det: Detection, m: MathLib)
    requires Lawful(m)
    ensures var a := Resolve(det, m);
      a.data.Some? && a.data.value.angle.Some? ==> -Pi <= a.data.value.angle.value <= Pi
  {
  }
}
