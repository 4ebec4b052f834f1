/** The per-frame driver of components/GestureController.tsx: `animate`
    and `handleGestureLogic` over the mutable transform shared with the
    renderer and the controller's own refs. The methods update the fields
    step by step, as the source does, and are proved equal to the
    functions of modules Stabiliser and Motion. */
module Controller {
  import opened Types
  import opened GestureService
  import opened Stabiliser
  import opened Motion

  /** Everything one frame reads and writes. */
  datatype ControllerState = ControllerState(stability: Stability, motion: MotionState)

  const InitialState: ControllerState := ControllerState(Stabiliser.Initial, InitialMotion)

  /** One `animate` frame for the detector's result (None when the detector
      returned null). */
  function Tick(c: ControllerState, results: Option<Detection>, now: real, m: MathLib): ControllerState
  {
    if results.Some? && |results.value.landmarks| > 0 then
      var a := Resolve(results.value, m);
      ControllerState(Step(c.stability, Some(a.gesture)),
                      Frame(c.motion, Some((a.gesture, a.data.GetOr(EmptyData))), now))
    else
      ControllerState(Step(c.stability, None), Frame(c.motion, None, now))
  }

  /** What holds of every reachable state. */
  predicate ControllerInv(c: ControllerState)
  {
    Coherent(c.stability) && Inv(c.motion.transform)
  }

  lemma InitialControllerInv()
    ensures ControllerInv(InitialState)
  {
    InitialCoherent();
    InitialInv();
  }

  /** Every frame keeps the stabiliser coherent and the transform within
      its invariant. */
  lemma TickPreservesInv(c: ControllerState, results: Option<Detection>, now: real, m: MathLib)
    requires ControllerInv(c)
    ensures ControllerInv(Tick(c, results, now, m))
  {
    if results.Some? && |results.value.landmarks| > 0 {
      var a := Resolve(results.value, m);
      StepProperties(c.stability, Some(a.gesture));
      FramePreservesInv(c.motion, Some((a.gesture, a.data.GetOr(EmptyData))), now);
    } else {
      StepProperties(c.stability, None);
      FramePreservesInv(c.motion, None, now);
    }
  }

  /** A frame without hands resets the stabiliser and only auto-rotates;
      `prevData` survives, so the next frame with hands measures its angle
      change against the last hand seen, however long ago. */
  lemma TickWithoutHands(c: ControllerState, results: Option<Detection>, now: real, m: MathLib)
    requires results.None? || |results.value.landmarks| == 0
    ensures var r := Tick(c, results, now, m);
      r.stability == Stabiliser.Initial &&
      r.motion.prevData == c.motion.prevData &&
      r.motion.navCooldown == c.motion.navCooldown &&
      r.motion.transform == AutoRotate(c.motion.transform)
  {
  }

  /** The motion side is driven by the RAW gesture, not the stabilised one:
      a single FIST_RIGHT frame in the gallery already returns to the tree,
      while the label still shows the previous gesture. */
  lemma RawGestureDrivesMotion(c: ControllerState, det: Detection, now: real, m: MathLib)
    requires ControllerInv(c) && c.motion.transform.treeState == Gallery
    requires |det.landmarks| > 0 && Resolve(det, m).gesture == FistRight
    requires c.stability.last != FistRight && c.stability.active != FistRight
    ensures var r := Tick(c, Some(det), now, m);
      r.motion.transform.treeState == Formed &&
      r.motion.transform.focusedPhotoIndex == None &&
      r.stability.active == c.stability.active
  {
    var a := Resolve(det, m);
    var s0 := c.motion.(transform := AutoRotate(c.motion.transform));
    FistReturnsToTree(Rotate(s0.transform, a.data.GetOr(EmptyData), s0.prevData));
  }

  /** `transformRef.current`: the record shared with the renderer, updated
      in place. */
  class TransformRef {
    var rotationY: real
    var autoRotationSpeed: real
    var position: Vec3
    var scale: real
    var galleryOffset: real
    var handPosition: (real, real)
    var treeState: TreeState
    var chaosFactor: real
    var focusedPhotoIndex: Option<int>

    function Value(): Transform
      reads this
    {
      Transform(rotationY, autoRotationSpeed, position, scale, galleryOffset,
                handPosition, treeState, chaosFactor, focusedPhotoIndex)
    }

    /** The start-up record of App. */
    constructor ()
      ensures Value() == InitialTransform
    {
      rotationY := 0.0;
      autoRotationSpeed := 0.0;
      position := Vec3(0.0, -0.5, 0.0);
      scale := 1.0;
      galleryOffset := 0.0;
      handPosition := (0.5, 0.5);
      treeState := Formed;
      chaosFactor := 0.0;
      focusedPhotoIndex := None;
    }
  }

  /** The component: its refs, the shown gesture, and the transform it
      drives. */
  class GestureController {
    const transform: TransformRef
    var prevData: Option<Snapshot>
    var navCooldown: real
    var gestureStabilityCounter: nat
    var lastGesture: HandGesture
    var activeGesture: HandGesture

    function MotionValue(): MotionState
      reads this, transform
    {
      MotionState(transform.Value(), prevData, navCooldown)
    }

    function State(): ControllerState
      reads this, transform
    {
      ControllerState(Stability(gestureStabilityCounter, lastGesture, activeGesture), MotionValue())
    }

    constructor (t: TransformRef)
      ensures transform == t
      ensures State() == ControllerState(Stabiliser.Initial, MotionState(t.Value(), None, 0.0))
    {
      transform := t;
      prevData := None;
      navCooldown := 0.0;
      gestureStabilityCounter := 0;
      lastGesture := NoGesture;
      activeGesture := NoGesture;
    }

    /** Section 1 of `handleGestureLogic`, in place. */
    method ApplyRotationImpulse(data: HandData)
      modifies transform
      ensures transform.Value() == Rotate(old(transform.Value()), data, prevData)
    {
      var t := transform;
      if data.angle.Some? {
        if prevData.Some? && prevData.value.angle.Some? {
          var deltaAngle := data.angle.value - prevData.value.angle.value;
          if deltaAngle > Pi {
            deltaAngle := deltaAngle - Pi * 2.0;
          }
          if deltaAngle < -Pi {
            deltaAngle := deltaAngle + Pi * 2.0;
          }
          assert deltaAngle == AngleDelta(data, prevData);
          if Abs(deltaAngle) > NoiseGate {
            var speedImpulse := -deltaAngle * ImpulseGain;
            if t.treeState == Gallery {
              t.rotationY := t.rotationY + speedImpulse;
            } else {
              t.autoRotationSpeed := Max(-MaxAutoSpeed, Min(MaxAutoSpeed, speedImpulse));
            }
          }
        }
      }
    }

    /** `handleGestureLogic(gesture, data, now)`, in place. */
    method HandleGestureLogic(gesture: HandGesture, data: HandData, now: real)
      requires WellFormedData(gesture, data)
      modifies this`prevData, this`navCooldown, transform
      ensures MotionValue() == HandleGesture(old(MotionValue()), gesture, data, now)
    {
      var t := transform;
      ApplyRotationImpulse(data);
      ghost var t1 := t.Value();

      if gesture == PalmBoth {
        if prevData.Some? && prevData.value.gesture == gesture && prevData.value.distance.Some? {
          var deltaDist := data.distance.value - prevData.value.distance.value;
          var zoomDelta := -deltaDist * ZoomSpeed * 1.5;
          var newScale := t.scale + zoomDelta;
          var maxScale := if t.treeState == Gallery then GalleryMaxScale else FormedMaxScale;
          var minScale := if t.treeState == Gallery then GalleryMinScale else FormedMinScale;
          t.scale := Max(minScale, Min(maxScale, newScale));
          assert t.Value() == Zoom(t1, deltaDist);
        }
        prevData := Some(Snapshot(None, None, data.distance, data.angle, gesture));
        return;
      }

      if gesture == OpenPalmRight {
        if t.treeState != Gallery {
          t.treeState := Gallery;
          t.chaosFactor := 1.0;
          t.autoRotationSpeed := 0.0;
          t.rotationY := 0.0;
          t.position := Vec3(0.0, 0.0, 0.0);
          t.focusedPhotoIndex := Some(0);
          t.galleryOffset := 0.0;
          if t.scale > GalleryEntryScaleLimit {
            t.scale := 1.0;
          }
        }
        t.chaosFactor := Min(1.0, t.chaosFactor + ChaosStep);
        assert t.Value() == OpenPalmStep(t1);
      } else if gesture == FistRight {
        if t.treeState != Formed {
          t.treeState := Formed;
          t.focusedPhotoIndex := None;
          t.position := Vec3(0.0, -0.5, 0.0);
        }
        t.chaosFactor := Max(0.0, t.chaosFactor - ChaosStep);
        assert t.Value() == FistStep(t1);
      } else if t.treeState == Gallery {
        if now - navCooldown > NavCooldownMs {
          if gesture == PinchLeft {
            var i := t.focusedPhotoIndex.GetOr(0) - 1;
            t.focusedPhotoIndex := Some(if i >= 0 then i else 0);
            t.galleryOffset := t.focusedPhotoIndex.value as real;
            navCooldown := now;
          } else if gesture == PinchRight {
            var i := t.focusedPhotoIndex.GetOr(0) + 1;
            t.focusedPhotoIndex := Some(if MaxPhotoIndex <= i then MaxPhotoIndex else i);
            t.galleryOffset := t.focusedPhotoIndex.value as real;
            navCooldown := now;
          }
        }
      }

      prevData := Some(Snapshot(data.x, data.y, data.distance, data.angle, gesture));
    }

    /** Lines 93-107 of `animate`: the run-length counter and the shown
        gesture, for a frame with hands. */
    method Stabilise(currentGesture: HandGesture)
      modifies this`gestureStabilityCounter, this`lastGesture, this`activeGesture
      ensures Stability(gestureStabilityCounter, lastGesture, activeGesture) ==
        Step(old(Stability(gestureStabilityCounter, lastGesture, activeGesture)), Some(currentGesture))
    {
      if currentGesture == lastGesture {
        gestureStabilityCounter := gestureStabilityCounter + 1;
      } else {
        gestureStabilityCounter := 0;
        lastGesture := currentGesture;
      }

      var threshold := if currentGesture == PinchRight || currentGesture == PinchLeft ||
                           currentGesture == PalmBoth || currentGesture == OpenPalmRight then 0 else 4;

      if gestureStabilityCounter >= threshold && currentGesture != activeGesture {
        activeGesture := currentGesture;
      }
    }

    /** One `animate` frame: auto-rotation, gesture resolution, the
        stabiliser, and `handleGestureLogic` on the raw gesture. The shown
        gesture is read from the field, fresh on every frame. */
    method Animate(results: Option<Detection>, now: real, m: MathLib)
      modifies this, transform
      ensures State() == Tick(old(State()), results, now, m)
    {
      var t := transform;
      if t.treeState != Gallery {
        t.rotationY := t.rotationY + t.autoRotationSpeed;
      }
      ghost var s0 := old(MotionValue()).(transform := AutoRotate(old(transform.Value())));
      assert MotionValue() == s0;

      if results.Some? && |results.value.landmarks| > 0 {
        var a := AnalyzeGestures(results.value, m);
        Stabilise(a.gesture);
        HandleGestureLogic(a.gesture, a.data.GetOr(EmptyData), now);
      } else {
        if activeGesture != NoGesture {
          activeGesture := NoGesture;
        }
        lastGesture := NoGesture;
        gestureStabilityCounter := 0;
      }
    }
  }
}
