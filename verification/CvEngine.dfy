/** The blink engine as the program has it: an object whose fields every frame updates. */
module CvEngine {
  import opened Options
  import opened BlinkEngine

  class CvEngine {
    var state: CvState
    var calibrationFrame: nat
    var left: Eye
    var right: Eye
    var blinkFired: bool
    var facePresent: bool
    var noFaceCount: nat
    var scheduled: bool
    var callbacks: seq<Callback>

    ghost function DetectorView(): Detector
      reads this
    {
      Detector(state, calibrationFrame, left, right, blinkFired)
    }

    ghost function View(): Engine
      reads this
    {
      Engine(DetectorView(), Gate(facePresent, noFaceCount), callbacks)
    }

    /** The loop is alive exactly while the engine is not idle. */
    ghost predicate Valid()
      reads this
    {
      scheduled <==> !state.Idle?
    }

    constructor ()
      ensures Valid() && View() == NewEngine
    {
      state, scheduled, callbacks := Idle, false, [];
      calibrationFrame, blinkFired := 0, false;
      left := Eye([], DEFAULT_THRESHOLD, 0, None);
      right := Eye([], DEFAULT_THRESHOLD, 0, None);
      facePresent, noFaceCount := false, 0;
    }

    /** Forgets everything about an earlier session. */
    method Start()
      requires Valid()
      modifies this
      ensures Valid() && View() == Started
      ensures state == Calibrating && scheduled && left == Eye([], 0.25, 0, None) && right == Eye([], 0.25, 0, None)
    {
      if !state.Idle? {
        Stop();
      }
      callbacks := [];
      state := Calibrating;
      calibrationFrame, blinkFired := 0, false;
      left := Eye([], DEFAULT_THRESHOLD, 0, None);
      right := Eye([], DEFAULT_THRESHOLD, 0, None);
      facePresent, noFaceCount := false, 0;
      scheduled := true;
    }

    method Stop()
      requires Valid()
      modifies this
      ensures Valid() && View() == StopStep(old(View()))
    {
      scheduled := false;
      state := Idle;
    }

    /** One animation frame, which is rescheduled whatever the frame was. */
    method ProcessFrame(frame: Frame)
      requires Valid()
      modifies this
      ensures Valid() && View() == FrameStep(old(View()), frame)
    {
      if state.Idle? {
        return;
      }
      scheduled := false;
      if frame.NotReady? || frame.RunnerThrows? {
        scheduled := true;
        return;
      }
      if frame.NoFace? {
        HandleNoFace();
        scheduled := true;
        return;
      }
      if frame.confidence.Some? && frame.confidence.value < CONFIDENCE_THRESHOLD {
        scheduled := true;
        return;
      }
      HandleFace(frame.ears);
      scheduled := true;
    }

    /** The rest of a frame with a face: presence, then calibration or detection. */
    method HandleFace(ears: Ears)
      requires state != Idle
      modifies this
      ensures scheduled == old(scheduled) && state != Idle
      ensures DetectorView() == DetectorStep(old(DetectorView()), ears)
      ensures facePresent && noFaceCount == 0
      ensures callbacks == old(callbacks) + (if old(facePresent) then [] else [OnFacePresent])
                           + if Fires(old(DetectorView()), ears) then [OnBlink] else []
    {
      if !facePresent {
        facePresent := true;
        callbacks := callbacks + [OnFacePresent];
      }
      noFaceCount := 0;
      if state.Calibrating? {
        DoCalibration(ears);
      } else {
        DoDetection(ears);
      }
    }

    method HandleNoFace()
      modifies this`noFaceCount, this`facePresent, this`callbacks
      ensures Gate(facePresent, noFaceCount) == GateStep(Gate(old(facePresent), old(noFaceCount)), NoFace)
      ensures callbacks == old(callbacks) + GateEvents(Gate(old(facePresent), old(noFaceCount)), NoFace)
      ensures noFaceCount == old(noFaceCount) + 1 && facePresent == (old(facePresent) && noFaceCount != 3)
      ensures callbacks == old(callbacks) + if old(facePresent) && noFaceCount == 3 then [OnFaceLost] else []
    {
      noFaceCount := noFaceCount + 1;
      if noFaceCount == NO_FACE_WINDOW && facePresent {
        facePresent := false;
        callbacks := callbacks + [OnFaceLost];
      }
    }

    method Mean(samples: seq<real>) returns (mean: real)
      requires samples != []
      ensures mean == Sum(samples) / |samples| as real
    {
      var total, k := 0.0, 0;
      while k < |samples|
        invariant 0 <= k <= |samples| && total == Sum(samples[..k])
      {
        assert samples[..k + 1][..k] == samples[..k];
        total := total + samples[k];
        k := k + 1;
      }
      assert samples[..k] == samples;
      mean := total / |samples| as real;
    }

    method Sample(eye: Eye, ear: Ear) returns (next: Eye)
      ensures next == Sampled(eye, ear)
      ensures next == eye.(samples := eye.samples + if ear > 0.0 then [ear] else [])
    {
      next := eye;
      if ear > 0.0 {
        next := eye.(samples := eye.samples + [ear]);
      }
    }

    method Finalize(eye: Eye) returns (next: Eye)
      ensures next == Finalized(eye)
      ensures next == if |eye.samples| >= 10 then eye.(threshold := 0.75 * (Sum(eye.samples) / |eye.samples| as real)) else eye
    {
      next := eye;
      if |eye.samples| >= MIN_CALIBRATION_SAMPLES {
        var mean := Mean(eye.samples);
        next := eye.(threshold := mean * THRESHOLD_RATIO);
      }
    }

    method DoCalibration(ears: Ears)
      requires state.Calibrating?
      modifies this`state, this`calibrationFrame, this`left, this`right
      ensures DetectorView() == Calibrate(old(DetectorView()), ears)
      ensures calibrationFrame == old(calibrationFrame) + 1 && state == if calibrationFrame >= 30 then Running else Calibrating
    {
      left := Sample(left, ears.left);
      right := Sample(right, ears.right);
      calibrationFrame := calibrationFrame + 1;
      if calibrationFrame >= CALIBRATION_FRAMES {
        left := Finalize(left);
        right := Finalize(right);
        state := Running;
      }
    }

    /** Smooths before comparing; the counter runs while the smoothed ratio is low. */
    method Track(eye: Eye, raw: Ear) returns (next: Eye)
      ensures next == Tracked(eye, raw)
      ensures var smoothed := if eye.smoothed == None then raw else 0.7 * raw + 0.3 * eye.smoothed.value;
              next == Eye(eye.samples, eye.threshold, if smoothed < eye.threshold then eye.below + 1 else 0, Some(smoothed))
    {
      var ear: real := raw;
      if eye.smoothed.Some? {
        ear := EAR_SMOOTHING_ALPHA * raw + (1.0 - EAR_SMOOTHING_ALPHA) * eye.smoothed.value;
      }
      if ear < eye.threshold {
        next := eye.(smoothed := Some(ear), below := eye.below + 1);
      } else {
        next := eye.(smoothed := Some(ear), below := 0);
      }
    }

    method DoDetection(ears: Ears)
      requires state.Running?
      modifies this`left, this`right, this`blinkFired, this`callbacks
      ensures DetectorView() == Detect(old(DetectorView()), ears)
      ensures callbacks == old(callbacks) + if Fires(old(DetectorView()), ears) then [OnBlink] else []
      ensures callbacks == old(callbacks) + if !old(blinkFired) && (left.below >= 2 || right.below >= 2) then [OnBlink] else []
      ensures blinkFired <==> left.below >= 2 || right.below >= 2 || (old(blinkFired) && left.below + right.below > 0)
    {
      left := Track(left, ears.left);
      right := Track(right, ears.right);
      if left.below == 0 && right.below == 0 {
        blinkFired := false;
      }
      if !blinkFired && (left.below >= BLINK_FRAMES || right.below >= BLINK_FRAMES) {
        blinkFired := true;
        callbacks := callbacks + [OnBlink];
      }
    }
  }
}
