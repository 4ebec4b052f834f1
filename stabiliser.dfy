/** The gesture stabiliser of components/GestureController.tsx (the part of
    `animate` between detection and `handleGestureLogic`): a run-length
    counter over the raw composite gesture with a per-gesture threshold,
    deciding which gesture is shown. */
module Stabiliser {
  import opened Types

  /** The three refs/state cells involved: `gestureStabilityCounter`,
      `lastGesture` and the shown `activeGesture`. */
  datatype Stability = Stability(counter: nat, last: HandGesture, active: HandGesture)

  const Initial: Stability := Stability(0, NoGesture, NoGesture)

  /** Gestures that react on their first frame (motion and zoom gestures). */
  predicate Immediate(g: HandGesture)
  {
    g == PinchRight || g == PinchLeft || g == PalmBoth || g == OpenPalmRight
  }

  /** How many further identical frames a gesture needs before it is shown. */
  function Threshold(g: HandGesture): nat
  {
    if Immediate(g) then 0 else 4
  }

  /** One frame. `raw` is the resolved gesture, or None when the detector
      reported no hands (which forces NONE and resets the run). */
  function Step(s: Stability, raw: Option<HandGesture>): Stability
  {
    match raw
    case None => Initial
    case Some(g) =>
      var counter := if g == s.last then s.counter + 1 else 0;
      Stability(counter, g, if counter >= Threshold(g) then g else s.active)
  }

  /** A sequence of frames, first to last. */
  function Run(s: Stability, frames: seq<Option<HandGesture>>): Stability
    decreases |frames|
  {
    if frames == [] then s else Run(Step(s, frames[0]), frames[1..])
  }

  function Repeat(g: HandGesture, n: nat): seq<Option<HandGesture>>
  {
    seq(n, _ => Some(g))
  }

  /** Reachable states: once the run of `last` has reached its threshold,
      `last` is the shown gesture. */
  predicate Coherent(s: Stability)
  {
    s.counter >= Threshold(s.last) ==> s.active == s.last
  }

  lemma InitialCoherent()
    ensures Coherent(Initial)
  {
  }

  /** Every step keeps the state coherent, shows either the old gesture or
      the raw one, and counts the run of the raw gesture. */
  lemma StepProperties(s: Stability, raw: Option<HandGesture>)
    requires Coherent(s)
    ensures Coherent(Step(s, raw))
    ensures raw.None? ==> Step(s, raw) == Stability(0, NoGesture, NoGesture)
    ensures raw.Some? ==> Step(s, raw).last == raw.value
    ensures raw.Some? ==> Step(s, raw).active in {s.active, raw.value}
    ensures raw.Some? && raw.value == s.last ==> Step(s, raw).counter == s.counter + 1
    ensures raw.Some? && raw.value != s.last ==> Step(s, raw).counter == 0
    ensures raw.Some? && Immediate(raw.value) ==> Step(s, raw).active == raw.value
  {
  }

  /** Continuing a run of `g` for n more frames adds n to the counter and
      shows `g` exactly when the counter has reached the threshold. */
  lemma {:induction false} ContinueRun(s: Stability, g: HandGesture, n: nat)
    requires s.last == g && Coherent(s)
    ensures Run(s, Repeat(g, n)) ==
      Stability(s.counter + n, g, if s.counter + n >= Threshold(g) then g else s.active)
    decreases n
  {
    if n > 0 {
      var s' := Step(s, Some(g));
      assert Repeat(g, n)[0] == Some(g) && Repeat(g, n)[1..] == Repeat(g, n - 1);
      ContinueRun(s', g, n - 1);
    }
  }

  /** Hysteresis: after n >= 1 frames of a gesture that differs from the
      last one seen, the counter is n - 1, and the gesture is shown exactly
      when n - 1 has reached its threshold; until then the shown gesture
      does not change. */
  lemma NewRun(s: Stability, g: HandGesture, n: nat)
    requires Coherent(s) && s.last != g && 1 <= n
    ensures Run(s, Repeat(g, n)) ==
      Stability(n - 1, g, if n - 1 >= Threshold(g) then g else s.active)
  {
    var s' := Step(s, Some(g));
    assert Repeat(g, n)[0] == Some(g) && Repeat(g, n)[1..] == Repeat(g, n - 1);
    ContinueRun(s', g, n - 1);
  }

  /** A debounced gesture (FIST_RIGHT, NONE, PINCH_BOTH, ...) needs five
      identical consecutive frames: it is shown after n of them iff n >= 5. */
  lemma DebouncedNeedsFiveFrames(s: Stability, g: HandGesture, n: nat)
    requires Coherent(s) && s.last != g && s.active != g && !Immediate(g) && 1 <= n
    ensures Run(s, Repeat(g, n)).active == g <==> n >= 5
  {
    NewRun(s, g, n);
  }

  /** An immediate gesture is shown on its first frame, whatever came before. */
  lemma ImmediateShownAtOnce(s: Stability, g: HandGesture)
    requires Immediate(g)
    ensures Step(s, Some(g)).active == g
  {
  }

  // ---------------------------------------------------------------------
  // The stabiliser as the source executes it
  // ---------------------------------------------------------------------

  /** `animate` is created in the first render and re-schedules itself, so
      the `activeGesture` it reads is the first render's value, NONE, on
      every frame. The comparison with the shown gesture is therefore a
      comparison with NONE: a NONE run is never shown, and the reset to
      NONE when no hands are seen never happens. */
  function StepAsWritten(s: Stability, raw: Option<HandGesture>): Stability
  {
    match raw
    case None => Stability(0, NoGesture, s.active)
    case Some(g) =>
      var counter := if g == s.last then s.counter + 1 else 0;
      Stability(counter, g, if counter >= Threshold(g) && g != NoGesture then g else s.active)
  }

  function RunAsWritten(s: Stability, frames: seq<Option<HandGesture>>): Stability
    decreases |frames|
  {
    if frames == [] then s else RunAsWritten(StepAsWritten(s, frames[0]), frames[1..])
  }

  /** As written, once a gesture is shown, the label never returns to
      SCANNING: no frame, with or without hands, shows NONE again. */
  lemma {:induction false} ShownGestureSticksAsWritten(s: Stability, frames: seq<Option<HandGesture>>)
    requires s.active != NoGesture
    ensures RunAsWritten(s, frames).active != NoGesture
    decreases |frames|
  {
    if frames != [] {
      ShownGestureSticksAsWritten(StepAsWritten(s, frames[0]), frames[1..]);
    }
  }

  /** The discrepancy on a concrete input: a fist is shown, then the hands
      leave the frame. The corrected step clears the label; as written it
      keeps showing the fist. */
  lemma HandsLeavingAfterFist()
    ensures Run(Initial, Repeat(FistRight, 5)).active == FistRight
    ensures Run(Initial, Repeat(FistRight, 5) + [None]).active == NoGesture
    ensures RunAsWritten(Initial, Repeat(FistRight, 5)).active == FistRight
    ensures RunAsWritten(Initial, Repeat(FistRight, 5) + [None]).active == FistRight
  {
    var frames := Repeat(FistRight, 5) + [None];
    NewRun(Initial, FistRight, 5);
    RunAppend(Initial, Repeat(FistRight, 5), None);
    var w := Initial;
    var i := 0;
    while i < 5
      invariant 0 <= i <= 5
      invariant RunAsWritten(Initial, Repeat(FistRight, 5)) == RunAsWritten(w, Repeat(FistRight, 5 - i))
      invariant RunAsWritten(Initial, frames) == RunAsWritten(w, Repeat(FistRight, 5 - i) + [None])
      invariant w == Stability(if i == 0 then 0 else i - 1, if i == 0 then NoGesture else FistRight,
                               if i == 5 then FistRight else NoGesture)
    {
      assert Repeat(FistRight, 5 - i)[0] == Some(FistRight);
      assert Repeat(FistRight, 5 - i)[1..] == Repeat(FistRight, 5 - i - 1);
      assert (Repeat(FistRight, 5 - i) + [None])[1..] == Repeat(FistRight, 5 - i - 1) + [None];
      w := StepAsWritten(w, Some(FistRight));
      i := i + 1;
    }
    assert Repeat(FistRight, 0) + [None] == [None];
    assert RunAsWritten(w, [None]) == StepAsWritten(w, None);
  }

  /** Running a sequence of frames and then one more is one more step. */
  lemma {:induction false} RunAppend(s: Stability, frames: seq<Option<HandGesture>>, last: Option<HandGesture>)
    ensures Run(s, frames + [last]) == Step(Run(s, frames), last)
    decreases |frames|
  {
    if frames == [] {
      assert [] + [last] == [last];
    } else {
      assert (frames + [last])[1..] == frames[1..] + [last];
      RunAppend(Step(s, frames[0]), frames[1..], last);
    }
  }

  /** With the shown gesture read fresh, NONE behaves like every other
      debounced gesture: five frames without a gesture clear the label, and
      a frame without hands clears it at once. */
  lemma NoGestureClearsLabel(s: Stability, n: nat)
    requires Coherent(s) && s.last != NoGesture && 5 <= n
    ensures Run(s, Repeat(NoGesture, n)).active == NoGesture
    ensures Step(s, None).active == NoGesture
  {
    NewRun(s, NoGesture, n);
  }
}
