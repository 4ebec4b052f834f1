/** Shared records and constants of the hand-tracking core: the landmark and
    gesture types of types.ts and the interaction constants of constants.ts. */
module Types {

  datatype Option<+T> = None | Some(value: T)
  {
    /** The JavaScript `?? d` operator. */
    function GetOr(d: T): T
    {
      match this
      case Some(v) => v
      case None => d
    }
  }

  /** One of the 21 keypoints of a detected hand: normalised image
      coordinates x and y, and a depth z. */
  datatype Landmark = Landmark(x: real, y: real, z: real)

  /** The number of landmarks the detector reports per hand. */
  const LandmarkCount: nat := 21

  /** A detected hand: exactly 21 landmarks. Landmark 0 is the wrist, 4 the
      thumb tip, 8/12/16/20 the finger tips, 9 the middle-finger knuckle. */
  type Hand = h: seq<Landmark> | |h| == LandmarkCount
    witness seq(LandmarkCount, _ => Landmark(0.0, 0.0, 0.0))

  /** The composite gesture of one frame. `NoGesture` is the source's NONE;
      DOUBLE_PINCH is declared by the source but never produced. */
  datatype HandGesture =
    | NoGesture
    | PinchRight
    | PinchLeft
    | PinchBoth
    | PalmBoth
    | FistRight
    | OpenPalmRight
    | DoublePinch

  /** Display mode of the scene. CHAOS is declared but nothing sets it. */
  datatype TreeState = Chaos | Formed | Gallery

  datatype Vec3 = Vec3(x: real, y: real, z: real)

  /** Auxiliary continuous data of a frame: every field is optional, as in
      the loosely typed record the source passes around. */
  datatype HandData = HandData(x: Option<real>, y: Option<real>,
                               distance: Option<real>, angle: Option<real>)

  /** The record `data || {}` yields when the resolver returned null. */
  const EmptyData: HandData := HandData(None, None, None, None)

  /** pi, the bound of atan2's range. */
  const Pi: real := 3.141592653589793

  /** Zoom multiplier. */
  const ZoomSpeed: real := 3.0

  /** Number of entries of FRAME_DATA; the last navigable index is one less. */
  const FrameDataLength: int := 6
  const MaxPhotoIndex: int := FrameDataLength - 1
}
