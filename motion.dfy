/** The motion integrator and mode machine of components/GestureController.tsx:
    `handleGestureLogic` and the per-frame auto-rotation of `animate`, as
    functions from the old state to the new one. The class in module
    Controller performs the same steps in place and is proved equal to
    these functions. */
module Motion {
  import opened Types

  /** The shared TransformState record (types.ts), as a value. */
  datatype Transform = Transform(
    rotationY: real,
    autoRotationSpeed: real,
    position: Vec3,
    scale: real,
    galleryOffset: real,
    handPosition: (real, real),
    treeState: TreeState,
    chaosFactor: real,
    focusedPhotoIndex: Option<int>)

  /** The record App creates at start-up. */
  const InitialTransform: Transform :=
    Transform(0.0, 0.0, Vec3(0.0, -0.5, 0.0), 1.0, 0.0, (0.5, 0.5), Formed, 0.0, None)

  /** `prevData`: the previous frame's payload and raw gesture. */
  datatype Snapshot = Snapshot(x: Option<real>, y: Option<real>, distance: Option<real>,
                               angle: Option<real>, gesture: HandGesture)

  /** What `handleGestureLogic` reads and writes: the shared transform and
      the refs `prevData` and `navCooldown`. */
  datatype MotionState = MotionState(transform: Transform, prevData: Option<Snapshot>, navCooldown: real)

  const InitialMotion: MotionState := MotionState(InitialTransform, None, 0.0)

  const NoiseGate: real := 0.05
  const ImpulseGain: real := 0.12
  const MaxAutoSpeed: real := 0.007
  const ChaosStep: real := 0.05
  const NavCooldownMs: real := 400.0
  const GalleryMinScale: real := 0.7
  const GalleryMaxScale: real := 1.4
  const FormedMinScale: real := 0.6
  const FormedMaxScale: real := 2.0
  /** The scale above which entering the gallery resets the scale to 1. */
  const GalleryEntryScaleLimit: real := 1.4

  function Max(a: real, b: real): real { if a >= b then a else b }
  function Min(a: real, b: real): real { if a <= b then a else b }
  function Abs(a: real): real { if a >= 0.0 then a else -a }

  /** `Math.max(lo, Math.min(hi, v))`. */
  function Clamp(lo: real, hi: real, v: real): (r: real)
    requires lo <= hi
    ensures lo <= r <= hi
    ensures lo <= v <= hi ==> r == v
    ensures v < lo ==> r == lo
    ensures hi < v ==> r == hi
  {
    Max(lo, Min(hi, v))
  }

  /** The angle difference brought back by one turn when it exceeds pi in
      magnitude (lines 129-131). */
  function WrapDelta(d: real): (r: real)
    ensures r == d || r == d - 2.0 * Pi || r == d + 2.0 * Pi
    ensures -2.0 * Pi <= d <= 2.0 * Pi ==> -Pi <= r <= Pi
    ensures -Pi <= d <= Pi ==> r == d
  {
    var d1 := if d > Pi then d - 2.0 * Pi else d;
    if d1 < -Pi then d1 + 2.0 * Pi else d1
  }

  /** Auto-rotation at the top of every frame, outside the gallery. */
  function AutoRotate(t: Transform): Transform
  {
    if t.treeState != Gallery then t.(rotationY := t.rotationY + t.autoRotationSpeed) else t
  }

  /** Whether this frame and the previous one both carry an angle. */
  predicate HasAngles(data: HandData, prev: Option<Snapshot>)
  {
    data.angle.Some? && prev.Some? && prev.value.angle.Some?
  }

  /** The wrapped angle change between the previous frame and this one. */
  function AngleDelta(data: HandData, prev: Option<Snapshot>): real
    requires HasAngles(data, prev)
  {
    WrapDelta(data.angle.value - prev.value.angle.value)
  }

  /** Section 1 of `handleGestureLogic`: the rotation impulse. */
  function Rotate(t: Transform, data: HandData, prev: Option<Snapshot>): Transform
  {
    if HasAngles(data, prev) && Abs(AngleDelta(data, prev)) > NoiseGate then
      var speedImpulse := -AngleDelta(data, prev) * ImpulseGain;
      if t.treeState == Gallery then t.(rotationY := t.rotationY + speedImpulse)
      else t.(autoRotationSpeed := Clamp(-MaxAutoSpeed, MaxAutoSpeed, speedImpulse))
    else t
  }

  /** Section 2: the two-palm zoom for a distance change, clamped to the
      bounds of the current mode. */
  function Zoom(t: Transform, deltaDist: real): Transform
  {
    var newScale := t.scale + -deltaDist * ZoomSpeed * 1.5;
    var maxScale := if t.treeState == Gallery then GalleryMaxScale else FormedMaxScale;
    var minScale := if t.treeState == Gallery then GalleryMinScale else FormedMinScale;
    t.(scale := Clamp(minScale, maxScale, newScale))
  }

  /** Section 3: OPEN_PALM_RIGHT enters the gallery (with its resets) and
      steps the chaos factor up. */
  function OpenPalmStep(t: Transform): Transform
  {
    var t1 :=
      if t.treeState != Gallery then
        t.(treeState := Gallery, chaosFactor := 1.0, autoRotationSpeed := 0.0, rotationY := 0.0,
           position := Vec3(0.0, 0.0, 0.0), focusedPhotoIndex := Some(0), galleryOffset := 0.0,
           scale := if t.scale > GalleryEntryScaleLimit then 1.0 else t.scale)
      else t;
    t1.(chaosFactor := Min(1.0, t1.chaosFactor + ChaosStep))
  }

  /** Section 4: FIST_RIGHT returns to the formed tree and steps the chaos
      factor down. */
  function FistStep(t: Transform): Transform
  {
    var t1 :=
      if t.treeState != Formed then
        t.(treeState := Formed, focusedPhotoIndex := None, position := Vec3(0.0, -0.5, 0.0))
      else t;
    t1.(chaosFactor := Max(0.0, t1.chaosFactor - ChaosStep))
  }

  /** Section 5: paging in the gallery, at most once per 400 ms. Returns the
      new transform and the new `navCooldown`. */
  function Navigate(t: Transform, navCooldown: real, g: HandGesture, now: real): (Transform, real)
  {
    if now - navCooldown > NavCooldownMs then
      if g == PinchLeft then
        var i := if t.focusedPhotoIndex.GetOr(0) - 1 >= 0 then t.focusedPhotoIndex.GetOr(0) - 1 else 0;
        (t.(focusedPhotoIndex := Some(i), galleryOffset := i as real), now)
      else if g == PinchRight then
        var i := if MaxPhotoIndex <= t.focusedPhotoIndex.GetOr(0) + 1 then MaxPhotoIndex else t.focusedPhotoIndex.GetOr(0) + 1;
        (t.(focusedPhotoIndex := Some(i), galleryOffset := i as real), now)
      else (t, navCooldown)
    else (t, navCooldown)
  }

  /** What the resolver guarantees the controller: a PALM_BOTH frame carries
      a distance. */
  predicate WellFormedData(g: HandGesture, data: HandData)
  {
    g == PalmBoth ==> data.distance.Some?
  }

  /** `handleGestureLogic(gesture, data, now)`. */
  function HandleGesture(s: MotionState, g: HandGesture, data: HandData, now: real): MotionState
    requires WellFormedData(g, data)
  {
    var t1 := Rotate(s.transform, data, s.prevData);
    if g == PalmBoth then
      var zoomed :=
        s.prevData.Some? && s.prevData.value.gesture == g && s.prevData.value.distance.Some?;
      var t2 := if zoomed then Zoom(t1, data.distance.value - s.prevData.value.distance.value) else t1;
      MotionState(t2, Some(Snapshot(None, None, data.distance, data.angle, g)), s.navCooldown)
    else
      var (t2, cooldown) :=
        if g == OpenPalmRight then (OpenPalmStep(t1), s.navCooldown)
        else if g == FistRight then (FistStep(t1), s.navCooldown)
        else if t1.treeState == Gallery then Navigate(t1, s.navCooldown, g, now)
        else (t1, s.navCooldown);
      MotionState(t2, Some(Snapshot(data.x, data.y, data.distance, data.angle, g)), cooldown)
  }

  /** The motion side of one `animate` frame: auto-rotation, then, when
      hands were seen, `handleGestureLogic` on the RAW gesture. */
  function Frame(s: MotionState, raw: Option<(HandGesture, HandData)>, now: real): MotionState
    requires raw.Some? ==> WellFormedData(raw.value.0, raw.value.1)
  {
    var s0 := s.(transform := AutoRotate(s.transform));
    match raw
    case None => s0
    case Some((g, data)) => HandleGesture(s0, g, data, now)
  }

  // ---------------------------------------------------------------------
  // The invariant of the transform
  // ---------------------------------------------------------------------

  /** The invariant every reachable transform satisfies. */
  predicate Inv(t: Transform)
  {
    -MaxAutoSpeed <= t.autoRotationSpeed <= MaxAutoSpeed &&
    FormedMinScale <= t.scale <= FormedMaxScale &&
    0.0 <= t.chaosFactor <= 1.0 &&
    t.treeState != Chaos &&
    (t.focusedPhotoIndex.None? <==> t.treeState == Formed) &&
    (t.treeState == Gallery ==>
      0 <= t.focusedPhotoIndex.value <= MaxPhotoIndex &&
      t.galleryOffset == t.focusedPhotoIndex.value as real &&
      t.scale <= GalleryMaxScale &&
      t.autoRotationSpeed == 0.0 &&
      t.chaosFactor == 1.0)
  }

  lemma InitialInv()
    ensures Inv(InitialTransform)
  {
  }

  lemma StepsPreserveInv(t: Transform, data: HandData, prev: Option<Snapshot>, d: real,
                         cooldown: real, g: HandGesture, now: real)
    requires Inv(t)
    ensures Inv(AutoRotate(t))
    ensures Inv(Rotate(t, data, prev))
    ensures Inv(Zoom(t, d))
    ensures Inv(OpenPalmStep(t))
    ensures Inv(FistStep(t))
    ensures t.treeState == Gallery ==> Inv(Navigate(t, cooldown, g, now).0)
  {
  }

  /** Every `handleGestureLogic` call keeps the invariant: the auto-rotation
      speed within [-0.007, 0.007], the scale within [0.6, 2.0] (and at most
      1.4 in the gallery), the chaos factor within [0, 1], the focused index
      null exactly in FORMED and, in the gallery, within [0, 5] and mirrored
      by the gallery offset. */
  lemma HandleGesturePreservesInv(s: MotionState, g: HandGesture, data: HandData, now: real)
    requires WellFormedData(g, data)
    requires Inv(s.transform)
    ensures Inv(HandleGesture(s, g, data, now).transform)
  {
    var t1 := Rotate(s.transform, data, s.prevData);
    StepsPreserveInv(s.transform, data, s.prevData, 0.0, s.navCooldown, g, now);
    if g == PalmBoth && s.prevData.Some? && s.prevData.value.distance.Some? {
      StepsPreserveInv(t1, data, s.prevData, data.distance.value - s.prevData.value.distance.value,
                       s.navCooldown, g, now);
    } else {
      StepsPreserveInv(t1, data, s.prevData, 0.0, s.navCooldown, g, now);
    }
  }

  /** Every frame keeps the invariant, with or without hands. */
  lemma FramePreservesInv(s: MotionState, raw: Option<(HandGesture, HandData)>, now: real)
    requires raw.Some? ==> WellFormedData(raw.value.0, raw.value.1)
    requires Inv(s.transform)
    ensures Inv(Frame(s, raw, now).transform)
  {
    StepsPreserveInv(s.transform, EmptyData, None, 0.0, 0.0, NoGesture, now);
    if raw.Some? {
      HandleGesturePreservesInv(s.(transform := AutoRotate(s.transform)), raw.value.0, raw.value.1, now);
    }
  }

  // ---------------------------------------------------------------------
  // Rotation
  // ---------------------------------------------------------------------

  /** For two angles in [-pi, pi] the wrapped difference lies in [-pi, pi]
      and differs from the raw one by a whole turn or not at all. */
  lemma WrappedDeltaBounded(a: real, b: real)
    requires -Pi <= a <= Pi && -Pi <= b <= Pi
    ensures -Pi <= WrapDelta(a - b) <= Pi
    ensures a - b > Pi ==> WrapDelta(a - b) == a - b - 2.0 * Pi
    ensures a - b < -Pi ==> WrapDelta(a - b) == a - b + 2.0 * Pi
  {
  }

  /** From 3.0 to -3.0 radians the hand turned by 2 pi - 6 (about 0.283),
      not by -6. */
  lemma WrapAcrossPi()
    ensures WrapDelta(-3.0 - 3.0) == 2.0 * Pi - 6.0
    ensures 0.28 < WrapDelta(-3.0 - 3.0) < 0.29
  {
  }

  /** The rotation impulse: nothing changes without two angles or when the
      wrapped change is at most 0.05 in magnitude; otherwise the gallery
      turns by -0.12 times the change at once, and outside the gallery the
      auto-rotation speed is REPLACED by that impulse clamped to
      [-0.007, 0.007]. No other field changes. */
  lemma RotationImpulse(t: Transform, data: HandData, prev: Option<Snapshot>)
    ensures var r := Rotate(t, data, prev);
      (!HasAngles(data, prev) || Abs(AngleDelta(data, prev)) <= NoiseGate ==> r == t) &&
      (HasAngles(data, prev) && Abs(AngleDelta(data, prev)) > NoiseGate ==>
        (t.treeState == Gallery ==>
          r == t.(rotationY := t.rotationY - ImpulseGain * AngleDelta(data, prev))) &&
        (t.treeState != Gallery ==>
          r == t.(autoRotationSpeed := Clamp(-MaxAutoSpeed, MaxAutoSpeed, -ImpulseGain * AngleDelta(data, prev))) &&
          -MaxAutoSpeed <= r.autoRotationSpeed <= MaxAutoSpeed))
  {
  }

  // ---------------------------------------------------------------------
  // Zoom
  // ---------------------------------------------------------------------

  /** The zoom moves the scale against the change of the palms' distance
      (by ZOOM_SPEED * 1.5 = 4.5 times it) and clamps it to [0.7, 1.4] in
      the gallery and [0.6, 2.0] otherwise; nothing else changes. */
  lemma ZoomClamped(t: Transform, deltaDist: real)
    ensures ZoomSpeed * 1.5 == 4.5
    ensures var r := Zoom(t, deltaDist);
      var lo := if t.treeState == Gallery then GalleryMinScale else FormedMinScale;
      var hi := if t.treeState == Gallery then GalleryMaxScale else FormedMaxScale;
      var target := t.scale - ZoomSpeed * 1.5 * deltaDist;
      r == t.(scale := Clamp(lo, hi, target)) &&
      (lo <= target <= hi ==> r.scale == target) &&
      (target < lo ==> r.scale == lo) &&
      (hi < target ==> r.scale == hi) &&
      (t.treeState == Gallery ==> GalleryMinScale <= r.scale <= GalleryMaxScale) &&
      (t.treeState != Gallery ==> FormedMinScale <= r.scale <= FormedMaxScale) &&
      (0.0 <= deltaDist ==> r.scale <= Max(t.scale, if t.treeState == Gallery then GalleryMinScale else FormedMinScale)) &&
      (deltaDist <= 0.0 ==> r.scale >= Min(t.scale, if t.treeState == Gallery then GalleryMaxScale else FormedMaxScale))
  {
  }

  /** A PALM_BOTH frame zooms only when the previous frame was PALM_BOTH
      with a distance, and always returns early: no mode change, no
      navigation; `prevData` keeps only the distance and angle. */
  lemma PalmBothOnlyZooms(s: MotionState, data: HandData, now: real)
    requires WellFormedData(PalmBoth, data)
    ensures var r := HandleGesture(s, PalmBoth, data, now);
      var t1 := Rotate(s.transform, data, s.prevData);
      r.navCooldown == s.navCooldown &&
      r.prevData == Some(Snapshot(None, None, data.distance, data.angle, PalmBoth)) &&
      r.transform.treeState == s.transform.treeState &&
      r.transform.focusedPhotoIndex == s.transform.focusedPhotoIndex &&
      r.transform.chaosFactor == s.transform.chaosFactor &&
      (s.prevData.Some? && s.prevData.value.gesture == PalmBoth && s.prevData.value.distance.Some? ==>
        r.transform == Zoom(t1, data.distance.value - s.prevData.value.distance.value)) &&
      (!(s.prevData.Some? && s.prevData.value.gesture == PalmBoth && s.prevData.value.distance.Some?) ==>
        r.transform == t1)
  {
  }

  // ---------------------------------------------------------------------
  // Mode transitions
  // ---------------------------------------------------------------------

  /** Entering the gallery resets rotation, speed, position, index and
      offset whatever they were, brings a scale above 1.4 back to 1, and
      sets the chaos factor to 1 outright. Any rotation impulse earlier in
      the same frame is overwritten. */
  lemma EnterGallery(s: MotionState, data: HandData, now: real)
    requires s.transform.treeState != Gallery
    ensures var t := HandleGesture(s, OpenPalmRight, data, now).transform;
      t.treeState == Gallery && t.chaosFactor == 1.0 &&
      t.autoRotationSpeed == 0.0 && t.rotationY == 0.0 &&
      t.position == Vec3(0.0, 0.0, 0.0) &&
      t.focusedPhotoIndex == Some(0) && t.galleryOffset == 0.0 &&
      t.scale == (if s.transform.scale > GalleryEntryScaleLimit then 1.0 else s.transform.scale) &&
      t.handPosition == s.transform.handPosition
  {
  }

  /** OPEN_PALM_RIGHT while already in the gallery only steps the chaos
      factor up towards 1. */
  lemma StayInGallery(t: Transform)
    requires t.treeState == Gallery
    ensures OpenPalmStep(t) == t.(chaosFactor := Min(1.0, t.chaosFactor + ChaosStep))
  {
  }

  /** FIST_RIGHT: back to FORMED, with the index cleared and the tree
      lowered when the mode changes, and the chaos factor stepped down by
      0.05, never below 0. */
  lemma FistReturnsToTree(t: Transform)
    ensures var r := FistStep(t);
      r == t.(treeState := Formed,
              focusedPhotoIndex := if t.treeState == Formed then t.focusedPhotoIndex else None,
              position := if t.treeState == Formed then t.position else Vec3(0.0, -0.5, 0.0),
              chaosFactor := Max(0.0, t.chaosFactor - ChaosStep)) &&
      (0.0 <= t.chaosFactor ==> 0.0 <= r.chaosFactor <= t.chaosFactor) &&
      (t.chaosFactor >= ChaosStep ==> r.chaosFactor == t.chaosFactor - ChaosStep)
  {
  }

  /** The gallery starts at 0.6 when it is entered at the smallest FORMED
      scale: entering does not raise the scale to the gallery minimum 0.7. */
  lemma GalleryCanStartBelowItsZoomMinimum()
    ensures var t := InitialTransform.(scale := FormedMinScale);
      Inv(t) && OpenPalmStep(t).treeState == Gallery && OpenPalmStep(t).scale == 0.6 &&
      OpenPalmStep(t).scale < GalleryMinScale
  {
  }

  // ---------------------------------------------------------------------
  // Navigation
  // ---------------------------------------------------------------------

  /** Paging: only after strictly more than 400 ms since the last accepted
      page; PINCH_LEFT moves back (not below 0), PINCH_RIGHT forward (not
      past 5); the offset mirrors the index and the clock restarts. Any
      other gesture, or a page inside the cooldown, changes nothing. */
  lemma NavigationStep(t: Transform, cooldown: real, g: HandGesture, now: real)
    requires Inv(t) && t.treeState == Gallery
    ensures var (r, c) := Navigate(t, cooldown, g, now);
      var i := t.focusedPhotoIndex.value;
      (now - cooldown <= NavCooldownMs || g !in {PinchLeft, PinchRight} ==> r == t && c == cooldown) &&
      (now - cooldown > NavCooldownMs && g == PinchLeft ==>
        c == now && r.focusedPhotoIndex == Some(if i == 0 then 0 else i - 1)) &&
      (now - cooldown > NavCooldownMs && g == PinchRight ==>
        c == now && r.focusedPhotoIndex == Some(if i == MaxPhotoIndex then MaxPhotoIndex else i + 1)) &&
      r.galleryOffset == r.focusedPhotoIndex.value as real &&
      r == t.(focusedPhotoIndex := r.focusedPhotoIndex, galleryOffset := r.galleryOffset)
  {
  }

  /** Two PINCH_RIGHT pages at most 400 ms apart advance the index once;
      more than 400 ms apart, twice (clamped at 5). */
  lemma CooldownLimitsPaging(t: Transform, cooldown: real, now1: real, now2: real)
    requires Inv(t) && t.treeState == Gallery && now1 - cooldown > NavCooldownMs
    ensures var (t1, c1) := Navigate(t, cooldown, PinchRight, now1);
      var (t2, c2) := Navigate(t1, c1, PinchRight, now2);
      var i := t.focusedPhotoIndex.value;
      (now2 - now1 <= NavCooldownMs ==> t2.focusedPhotoIndex == Some(CapIndex(i + 1)) && c2 == now1) &&
      (now2 - now1 > NavCooldownMs ==> t2.focusedPhotoIndex == Some(CapIndex(CapIndex(i + 1) + 1)) && c2 == now2)
  {
  }

  /** `Math.min(FRAME_DATA.length - 1, i)`: an index capped at the last photo. */
  function CapIndex(i: int): int { if MaxPhotoIndex <= i then MaxPhotoIndex else i }

  /** At the last photo a page forward keeps the index and offset at 5. */
  lemma LastPhotoStays(t: Transform, cooldown: real, now: real)
    requires Inv(t) && t.treeState == Gallery && t.focusedPhotoIndex == Some(MaxPhotoIndex)
    requires now - cooldown > NavCooldownMs
    ensures Navigate(t, cooldown, PinchRight, now).0.focusedPhotoIndex == Some(5)
    ensures Navigate(t, cooldown, PinchRight, now).0.galleryOffset == 5.0
  {
  }

  // ---------------------------------------------------------------------
  // Snapshotting and whole frames
  // ---------------------------------------------------------------------

  /** Every call overwrites `prevData` with this frame's raw gesture and
      angle; outside PALM_BOTH it keeps the whole payload. The cooldown
      changes only on an accepted page, to `now`. */
  lemma HandleGestureSnapshots(s: MotionState, g: HandGesture, data: HandData, now: real)
    requires WellFormedData(g, data)
    ensures var r := HandleGesture(s, g, data, now);
      r.prevData.Some? && r.prevData.value.gesture == g && r.prevData.value.angle == data.angle &&
      r.prevData.value.distance == data.distance &&
      (g != PalmBoth ==> r.prevData == Some(Snapshot(data.x, data.y, data.distance, data.angle, g))) &&
      (r.navCooldown == s.navCooldown || r.navCooldown == now) &&
      (r.navCooldown != s.navCooldown ==> g in {PinchLeft, PinchRight} && s.transform.treeState == Gallery)
  {
  }

  /** A frame without hands only auto-rotates: outside the gallery the
      rotation advances by the auto-rotation speed; `prevData` and the
      cooldown are untouched. */
  lemma FrameWithoutHands(s: MotionState, now: real)
    ensures var r := Frame(s, None, now);
      r.prevData == s.prevData && r.navCooldown == s.navCooldown &&
      r.transform == s.transform.(rotationY := r.transform.rotationY) &&
      r.transform.rotationY ==
        (if s.transform.treeState == Gallery then s.transform.rotationY
         else s.transform.rotationY + s.transform.autoRotationSpeed)
  {
  }

  /** Starting from the initial state, one OPEN_PALM_RIGHT frame already
      enters the gallery; after five the mode is GALLERY, the index 0 and
      the chaos factor 1 (set outright on entry, then capped). */
  lemma FiveOpenPalmFrames(d: HandData, t1: real, t2: real, t3: real, t4: real, t5: real)
    ensures var raw := Some((OpenPalmRight, d));
      var s1 := Frame(InitialMotion, raw, t1);
      var s5 := Frame(Frame(Frame(Frame(s1, raw, t2), raw, t3), raw, t4), raw, t5);
      s1.transform.treeState == Gallery &&
      s5.transform.treeState == Gallery && s5.transform.focusedPhotoIndex == Some(0) &&
      s5.transform.chaosFactor == 1.0 && s5.transform.galleryOffset == 0.0
  {
    var raw := Some((OpenPalmRight, d));
    var s1 := Frame(InitialMotion, raw, t1);
    assert s1.transform.treeState == Gallery && s1.transform.chaosFactor == 1.0;
    assert Inv(s1.transform) by {
      FramePreservesInv(InitialMotion, raw, t1);
    }
    var s2 := Frame(s1, raw, t2);
    FramePreservesInv(s1, raw, t2);
    var s3 := Frame(s2, raw, t3);
    FramePreservesInv(s2, raw, t3);
    var s4 := Frame(s3, raw, t4);
    FramePreservesInv(s3, raw, t4);
  }
}
