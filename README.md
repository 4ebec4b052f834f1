# Hand-gesture recognition and motion core, in Dafny

This project models the core of a hand-tracking 3D toy. A camera feed is
classified, frame by frame, into a composite hand gesture. The gesture then
drives one shared transform: rotation, zoom, a FORMED/GALLERY display mode
and paging through six photos.

The model covers two source files.

- `services/gestureService.ts`, in modules `GestureService` and
  `GestureProperties`:
  - the planar landmark distance and the hand scale;
  - the pinch, fist and open-palm predicates, with their counting loops
    modelled as methods;
  - `analyzeGestures`: the handedness loop, the mirrored role mapping and
    the precedence chain that picks one gesture and its payload.
- `components/GestureController.tsx`, in modules `Stabiliser`, `Motion` and
  `Controller`:
  - the run-length stabiliser of `animate`;
  - the per-frame auto-rotation;
  - all of `handleGestureLogic`: rotation impulse, two-palm zoom, the
    open-palm and fist mode transitions, and rate-limited paging.

`Stabiliser` and `Motion` state each step as a function from the old state to
the new one. `Controller` holds two classes:
- `TransformRef` is the mutable `transformRef.current` record.
- `GestureController` holds the refs `prevData`, `navCooldown`,
  `gestureStabilityCounter` and `lastGesture`, and the shown gesture.

The class methods update these fields step by step, as the source does. Each
is proved to leave exactly the state the specification functions compute.

The square root and `Math.atan2` are foreign numerics. They are parameters
bundled in `GestureService.MathLib`. `GestureService.Lawful` states the laws
the model relies on: sqrt is the non-negative square root, and atan2 lies in
[-pi, pi].

Threshold tests compare squared distances. `sqrt(D) < k * sqrt(S)` holds
exactly when `D < k * k * S`, because both sides are non-negative. So the
predicates take the squared hand scale.

Points of the source's behaviour that the model keeps as written:
- Outside the gallery, the rotation impulse replaces `autoRotationSpeed`
  with the impulse clamped to [-0.007, 0.007] (`components/GestureController.tsx:140`).
  It is not added to the current speed.
- Entering the gallery sets `chaosFactor` to 1 outright (`:167`), so five
  OPEN_PALM_RIGHT frames from start-up end with chaos factor 1.
- The paging cooldown test is strict, `now - navCooldown > 400` (`:188`), so
  two pages exactly 400 ms apart advance the index once.
- The angle wrap adds or subtracts one turn only when the change lies
  strictly outside [-pi, pi] (`:130-131`), so a change of exactly -pi stays
  -pi and wrapped changes lie in [-pi, pi].
- Gallery zoom clamps the scale to [0.7, 1.4] (`:154-157`), but entering the
  gallery only lowers a scale above 1.4 (`:173`). The gallery can therefore
  show scale 0.6 until the next zoom.
- `handleGestureLogic` is driven by the raw resolved gesture, not the
  stabilised one (`:109`).

## Model

| member | source | states |
|---|---|---|
| GestureService.SqDist | services/gestureService.ts:37-39 | the squared distance is non-negative and planar: x and y only, depth plays no part |
| GestureService.ScaleSqOr1 | services/gestureService.ts:97-98 | the squared scale used for a hand is non-negative, and 1 when the hand is missing |
| GestureService.FoldedCount | services/gestureService.ts:50-58 | the number of folded tips never exceeds the number of tips examined |
| GestureService.ExtendedCount | services/gestureService.ts:62-71 | the number of extended tips never exceeds the number of tips examined |
| GestureService.IsFist | services/gestureService.ts:50-60 | the counting loop over tips 8, 12, 16, 20 returns exactly the fist predicate |
| GestureService.IsOpenPalm | services/gestureService.ts:62-73 | the early pinch return plus the counting loop return exactly the open-palm predicate |
| GestureService.LastIndexOf | services/gestureService.ts:84-88 | the index is -1 or an entry equal to the label, and no later entry carries the label |
| GestureService.Decide | services/gestureService.ts:107-148 | a PALM_BOTH result always carries a distance, which the zoom relies on |
| GestureService.Resolve | services/gestureService.ts:79-148 | a PALM_BOTH result always carries a distance |
| GestureService.AnalyzeGestures | services/gestureService.ts:75-149 | the handedness loop and the chain of returns compute exactly Resolve |
| GestureProperties.SquaresOrdered | services/gestureService.ts:45-48 | for non-negative values, the order of two values is the order of their squares |
| GestureProperties.ThresholdBySquares | services/gestureService.ts:45-73 | with a lawful sqrt, `sqrt(d) < k*sqrt(s)` iff `d < k*k*s`, and likewise for `>` |
| GestureProperties.SquaredThresholdsAgree | services/gestureService.ts:37-73 | the squared pinch, folded and extended tests agree with the source's square-root tests |
| GestureProperties.FoldedCountOfTips | services/gestureService.ts:50-71 | the folded and extended counts over the four tips are sums of four indicators |
| GestureProperties.FistIffThreeFolded | services/gestureService.ts:50-60 | fist iff at least three of tips 8, 12, 16, 20 are strictly within 1.4 scales of the wrist |
| GestureProperties.OpenPalmIffThreeExtended | services/gestureService.ts:62-73 | open palm iff not pinching and at least three tips are strictly beyond 1.6 scales |
| GestureProperties.CountsShareTips | services/gestureService.ts:50-73 | no tip is both folded and extended, so the two counts sum to at most the number of tips |
| GestureProperties.FistExcludesOpenPalm | services/gestureService.ts:50-73 | a hand is never both a fist and an open palm |
| GestureProperties.OpenPalmExcludesPinch | services/gestureService.ts:62-63 | an open palm is never pinching |
| GestureProperties.ClassificationSimilar | services/gestureService.ts:37-73 | hands whose squared distances are all scaled by one factor get the same pinch, fist and open-palm verdicts |
| GestureProperties.ScaledIsSimilar | services/gestureService.ts:37-39 | scaling every coordinate by k > 0 scales every squared distance by k*k |
| GestureProperties.TranslatedIsSimilar | services/gestureService.ts:37-39 | translating every landmark keeps every distance |
| GestureProperties.ClassificationScaleInvariant | services/gestureService.ts:37-73 | uniform scaling by k > 0 leaves all three predicates unchanged |
| GestureProperties.ClassificationTranslationInvariant | services/gestureService.ts:37-73 | translation leaves all three predicates unchanged |
| GestureProperties.DecideGestureSimilar | services/gestureService.ts:107-148 | each hand replaced by a similar one gives the same composite gesture |
| GestureProperties.ResolveGestureSimilar | services/gestureService.ts:75-148 | a detection whose hands are each similar to the original resolves to the same gesture |
| GestureProperties.SlotPredicatesAgree | services/gestureService.ts:94-117 | hands equal in x and y have the same scale and role predicates |
| GestureProperties.RightPayloadIgnoresDepth | services/gestureService.ts:100-105 | the right hand's angle and reported coordinates ignore depth |
| GestureProperties.PairDistancesIgnoreDepth | services/gestureService.ts:111-125 | the two-hand payload distances and the left thumb position ignore depth |
| GestureProperties.DecideIgnoresDepth | services/gestureService.ts:107-148 | changing only depths changes neither the gesture nor its payload |
| GestureProperties.ResolveIgnoresDepth | services/gestureService.ts:75-148 | a detection differing only in depths resolves to the same gesture and payload |
| GestureProperties.RolesAreMirrored | services/gestureService.ts:81-95 | "Left" (last occurrence) is the user's right hand and "Right" the left; a single unlabelled hand is the right hand; otherwise a missing label leaves its role empty |
| GestureProperties.NoHandsResolveToNone | services/gestureService.ts:79 | no hands give NONE with null data |
| GestureProperties.DecideFollowsPrecedence | services/gestureService.ts:107-148 | the gesture is the first that applies of PALM_BOTH, PINCH_BOTH, PINCH_LEFT, PINCH_RIGHT, FIST_RIGHT, OPEN_PALM_RIGHT, else NONE |
| GestureProperties.TwoPinchesGivePinchBoth | services/gestureService.ts:116-126 | two pinching hands give PINCH_BOTH, never PINCH_LEFT |
| GestureProperties.RightPinchOutranksFist | services/gestureService.ts:128-137 | a pinching right hand never yields FIST_RIGHT or OPEN_PALM_RIGHT |
| GestureProperties.DecidePayload | services/gestureService.ts:111-148 | the payload of every gesture: knuckle distance, thumb-tip distance, left thumb x/y, right-hand angle, and null for a lone non-pinching left hand |
| GestureProperties.ResolveAngleInRange | services/gestureService.ts:100-105 | with a lawful atan2 every reported angle lies in [-pi, pi] |
| Stabiliser.InitialCoherent | components/GestureController.tsx:15-20 | the initial counter, last and shown gesture are coherent |
| Stabiliser.StepProperties | components/GestureController.tsx:93-113 | a step counts the run of the raw gesture, shows the old or the raw gesture, shows immediate gestures at once, resets on no hands, and stays coherent |
| Stabiliser.ContinueRun | components/GestureController.tsx:93-107 | n more frames of the current gesture add n to the counter and show it once the threshold is reached |
| Stabiliser.NewRun | components/GestureController.tsx:93-107 | n frames of a new gesture leave the counter at n-1 and show it iff n-1 reaches its threshold |
| Stabiliser.DebouncedNeedsFiveFrames | components/GestureController.tsx:100-107 | a debounced gesture is shown after n identical frames iff n >= 5 |
| Stabiliser.ImmediateShownAtOnce | components/GestureController.tsx:100-107 | PINCH_RIGHT, PINCH_LEFT, PALM_BOTH and OPEN_PALM_RIGHT are shown on their first frame |
| Stabiliser.ShownGestureSticksAsWritten | components/GestureController.tsx:105-111 | as written, once a gesture is shown no later frame shows NONE again |
| Stabiliser.HandsLeavingAfterFist | components/GestureController.tsx:105-113 | five FIST_RIGHT frames then a frame without hands: the corrected run shows NONE, the run as written still shows FIST_RIGHT |
| Stabiliser.NoGestureClearsLabel | components/GestureController.tsx:105-113 | in the corrected step five NONE frames, or one frame without hands, show NONE |
| Motion.Clamp | components/GestureController.tsx:156-158 | the clamped value lies in [lo, hi], equals v inside, and the nearer bound outside |
| Motion.WrapDelta | components/GestureController.tsx:128-131 | the wrapped change differs from the raw one by at most one turn, lies in [-pi, pi] for raw changes in [-2pi, 2pi], and is unchanged inside [-pi, pi] |
| Motion.WrappedDeltaBounded | components/GestureController.tsx:128-131 | for two angles in [-pi, pi] the wrapped change lies in [-pi, pi], one turn off exactly when the raw change is outside |
| Motion.WrapAcrossPi | components/GestureController.tsx:128-131 | from 3 to -3 radians the change is 2pi - 6, about 0.283 |
| Motion.RotationImpulse | components/GestureController.tsx:127-144 | no change without two angles or within the 0.05 noise gate; else the gallery turns by -0.12 times the change, and elsewhere the auto speed becomes exactly Clamp(-0.007, 0.007, -0.12 times the change): the impulse itself inside the bounds, the bound of its sign outside; no other field changes |
| Motion.ZoomClamped | components/GestureController.tsx:150-158 | only the scale changes, to `scale - 4.5 * deltaDist` (ZOOM_SPEED * 1.5) when that lies within [0.7, 1.4] in the gallery or [0.6, 2.0] otherwise, and to the nearer bound when it does not |
| Motion.PalmBothOnlyZooms | components/GestureController.tsx:147-161 | PALM_BOTH zooms only after a PALM_BOTH frame with a distance, returns early without mode change or paging, and keeps only distance and angle |
| Motion.EnterGallery | components/GestureController.tsx:164-176 | entering the gallery resets rotation, speed, position, index and offset whatever came before, sets chaos to 1, and lowers a scale above 1.4 to 1 |
| Motion.StayInGallery | components/GestureController.tsx:164-176 | OPEN_PALM_RIGHT in the gallery only steps the chaos factor up, capped at 1 |
| Motion.FistReturnsToTree | components/GestureController.tsx:178-185 | FIST_RIGHT ends in FORMED, clears the index and lowers the tree on a mode change, and steps chaos down by 0.05, floored at 0; every other field, including galleryOffset and handPosition, is unchanged |
| Motion.GalleryCanStartBelowItsZoomMinimum | components/GestureController.tsx:154-175 | entering the gallery at scale 0.6 leaves scale 0.6, below the gallery zoom minimum |
| Motion.NavigationStep | components/GestureController.tsx:187-200 | paging happens only for pinches after strictly more than 400 ms, moves the index by one within [0, 5], mirrors it into the offset and restarts the clock; anything else changes nothing |
| Motion.CooldownLimitsPaging | components/GestureController.tsx:188-198 | two forward pages at most 400 ms apart advance once, more than 400 ms apart twice |
| Motion.LastPhotoStays | components/GestureController.tsx:193-196 | paging forward at photo 5 keeps index and offset at 5 |
| Motion.InitialInv | App.tsx:233-243 | the start-up transform satisfies the invariant |
| Motion.StepsPreserveInv | components/GestureController.tsx:85-200 | auto-rotation, rotation impulse, zoom, both mode transitions and paging each keep the invariant |
| Motion.HandleGesturePreservesInv | components/GestureController.tsx:122-203 | the speed stays in [-0.007, 0.007], scale in [0.6, 2.0] (at most 1.4 in the gallery), chaos in [0, 1], index null exactly in FORMED and in [0, 5] mirrored by the offset in the gallery |
| Motion.FramePreservesInv | components/GestureController.tsx:85-113 | every frame, with or without hands, keeps the invariant |
| Motion.HandleGestureSnapshots | components/GestureController.tsx:159-202 | every call overwrites prevData with this frame's gesture, distance and angle; the cooldown changes only to `now` on a gallery pinch |
| Motion.FrameWithoutHands | components/GestureController.tsx:85-87 | a frame without hands only advances the rotation by the auto speed outside the gallery |
| Motion.FiveOpenPalmFrames | components/GestureController.tsx:164-176 | from the start, one OPEN_PALM_RIGHT frame enters the gallery; after five, index 0, offset 0 and chaos 1 |
| Controller.InitialControllerInv | App.tsx:233-243 | the start-up state satisfies the stabiliser and transform invariants |
| Controller.TickPreservesInv | components/GestureController.tsx:76-118 | every `animate` frame keeps both invariants |
| Controller.TickWithoutHands | components/GestureController.tsx:85-113 | without hands the stabiliser resets, only auto-rotation happens, and prevData and the cooldown survive |
| Controller.RawGestureDrivesMotion | components/GestureController.tsx:93-109 | one FIST_RIGHT frame in the gallery already returns to the tree while the label is unchanged |
| Controller.TransformRef.constructor | App.tsx:233-243 | the shared record starts as the start-up transform |
| Controller.GestureController.constructor | components/GestureController.tsx:15-20 | the refs start empty: no previous data, cooldown 0, counter 0, NONE last and shown |
| Controller.GestureController.ApplyRotationImpulse | components/GestureController.tsx:127-144 | the in-place rotation step leaves the transform Motion.Rotate computes |
| Controller.GestureController.HandleGestureLogic | components/GestureController.tsx:122-203 | the in-place `handleGestureLogic` leaves transform, prevData and cooldown as Motion.HandleGesture computes |
| Controller.GestureController.Stabilise | components/GestureController.tsx:93-107 | the in-place counter update leaves the stabiliser state Stabiliser.Step computes |
| Controller.GestureController.Animate | components/GestureController.tsx:76-118 | the in-place frame leaves the state Controller.Tick computes |

## Left out

- Hand-landmarker setup and detection (`initializeHandLandmarker`, `detectHands`): foreign library calls and model loading. A detector result is an input, and a null result is `None`.
- Camera start-up, error categorisation, `requestAnimationFrame` scheduling, the video-size guard, and the debug canvas drawing and clearing: browser I/O.
- React state plumbing and JSX. The shown gesture is the field `activeGesture`, read fresh on every frame (see Findings).
- The renderer components (`LuxuryTree.tsx`, `Tree.tsx`, `Scene.tsx`), App's photo probing, music and upload UI, `src/App.tsx`, and the build configuration: none of them decides a gesture or writes the transform.
- Floating point: coordinates, angles and the transform are exact reals, so rounding in `Math.sqrt`, `Math.atan2` and the additions is not modelled.
- `Math.sqrt` and `Math.atan2` are parameters. Their laws are stated by `GestureService.Lawful` and assumed only by the lemmas that need them.
- The unused constants `PINCH_RATIO`, `FIST_RATIO`, `PALM_RATIO`, `ROTATION_SPEED` and `PAN_SPEED` play no part in the logic.
- The null check on `transformRef.current` in `animate`: the record always exists.
- Duck-typed data: missing fields are `None`. The model relies on the resolver's guarantee that a PALM_BOTH payload has a distance (`Motion.WellFormedData`), which `GestureService.Resolve` proves. The NaN an absent distance would give is therefore never reached.
- `handPosition` is carried unchanged, because no modelled code writes it.
- `DOUBLE_PINCH` and the CHAOS mode are declared but never produced. The invariant excludes CHAOS.

## Findings

| source | as written | input that shows it | evidently intended | confidence | as-written member | corrected member |
|---|---|---|---|---|---|---|
| components/GestureController.tsx:105-111 | `animate` is the closure of the first render and re-schedules itself, so the `activeGesture` it compares with is always the initial NONE; `setActiveGesture(NONE)` is never called, and a NONE run is never shown | five FIST_RIGHT frames (the label shows FIST), then a frame without hands: the label keeps showing FIST instead of returning to SCANNING | a frame without hands, or five NONE frames, shows NONE | medium, not executed | Stabiliser.ShownGestureSticksAsWritten | Stabiliser.NoGestureClearsLabel |
