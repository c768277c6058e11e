/** The blink engine, frame by frame: calibration, smoothed detection, and face presence. */
module BlinkEngine {
  import opened Options

  const CALIBRATION_FRAMES := 30
  const MIN_CALIBRATION_SAMPLES := 10
  const DEFAULT_THRESHOLD := 0.25
  const THRESHOLD_RATIO := 0.75
  const BLINK_FRAMES := 2
  const NO_FACE_WINDOW := 3
  const CONFIDENCE_THRESHOLD := 0.5
  const EAR_SMOOTHING_ALPHA := 0.7

  /** An eye aspect ratio: distances over distances, or 0. */
  type Ear = r: real | r >= 0.0

  datatype CvState = Idle | Calibrating | Running

  /** What a detected face gives: the ratio of each eye. */
  datatype Ears = Ears(left: Ear, right: Ear)

  datatype Frame = NotReady | RunnerThrows | NoFace | Face(confidence: Option<real>, ears: Ears)

  datatype Callback = OnBlink | OnFacePresent | OnFaceLost

  datatype Side = Left | Right

  datatype Eye = Eye(samples: seq<real>, threshold: real, below: nat, smoothed: Option<real>)

  datatype Detector = Detector(state: CvState, calibrated: nat, left: Eye, right: Eye, fired: bool)

  datatype Gate = Gate(present: bool, noFaces: nat)

  /** `log` holds the callbacks of the session so far. */
  datatype Engine = Engine(detector: Detector, gate: Gate, log: seq<Callback>)

  datatype Event = Start | Stop | OnFrame(frame: Frame)

  const NewEye := Eye([], DEFAULT_THRESHOLD, 0, None)
  const NewDetector := Detector(Calibrating, 0, NewEye, NewEye, false)
  const Started := Engine(NewDetector, Gate(false, 0), [])

  function EyeOf(d: Detector, side: Side): Eye {
    if side.Left? then d.left else d.right
  }

  /** A face whose confidence is missing or high enough. */
  predicate Confident(f: Frame) {
    f.Face? && (f.confidence.None? || f.confidence.value >= CONFIDENCE_THRESHOLD)
  }

  function EarOf(ears: Ears, side: Side): Ear {
    if side.Left? then ears.left else ears.right
  }

  // ---- Calibration ----------------------------------------------------------------------

  function Sum(samples: seq<real>): real {
    if samples == [] then 0.0 else Sum(samples[..|samples| - 1]) + samples[|samples| - 1]
  }

  function Sampled(eye: Eye, ear: real): Eye {
    if ear > 0.0 then eye.(samples := eye.samples + [ear]) else eye
  }

  function Threshold(samples: seq<real>, before: real): real {
    if |samples| >= MIN_CALIBRATION_SAMPLES then Sum(samples) / |samples| as real * THRESHOLD_RATIO else before
  }

  function Finalized(eye: Eye): Eye {
    eye.(threshold := Threshold(eye.samples, eye.threshold))
  }

  function Calibrate(d: Detector, ears: Ears): Detector {
    var left, right, n := Sampled(d.left, ears.left), Sampled(d.right, ears.right), d.calibrated + 1;
    if n >= CALIBRATION_FRAMES then Detector(Running, n, Finalized(left), Finalized(right), d.fired)
    else Detector(d.state, n, left, right, d.fired)
  }

  // ---- Detection ------------------------------------------------------------------------

  function Smooth(before: Option<real>, raw: real): real {
    if before.None? then raw else EAR_SMOOTHING_ALPHA * raw + (1.0 - EAR_SMOOTHING_ALPHA) * before.value
  }

  function Tracked(eye: Eye, raw: real): Eye {
    var smoothed := Smooth(eye.smoothed, raw);
    eye.(smoothed := Some(smoothed), below := if smoothed < eye.threshold then eye.below + 1 else 0)
  }

  /** Still latched after a frame with these counters. */
  predicate Latched(fired: bool, leftBelow: nat, rightBelow: nat) {
    fired && !(leftBelow == 0 && rightBelow == 0)
  }

  predicate Fires(d: Detector, ears: Ears) {
    d.state.Running? &&
    var l, r := Tracked(d.left, ears.left).below, Tracked(d.right, ears.right).below;
    !Latched(d.fired, l, r) && (l >= BLINK_FRAMES || r >= BLINK_FRAMES)
  }

  function Detect(d: Detector, ears: Ears): Detector {
    var left, right := Tracked(d.left, ears.left), Tracked(d.right, ears.right);
    Detector(d.state, d.calibrated, left, right, Latched(d.fired, left.below, right.below) || Fires(d, ears))
  }

  function DetectorStep(d: Detector, ears: Ears): Detector {
    if d.state.Idle? then d else if d.state.Calibrating? then Calibrate(d, ears) else Detect(d, ears)
  }

  // ---- Face presence --------------------------------------------------------------------

  predicate Loses(g: Gate, f: Frame) {
    f.NoFace? && g.noFaces + 1 == NO_FACE_WINDOW && g.present
  }

  function GateStep(g: Gate, f: Frame): Gate {
    if f.NoFace? then Gate(g.present && !Loses(g, f), g.noFaces + 1)
    else if Confident(f) then Gate(true, 0)
    else g
  }

  function GateEvents(g: Gate, f: Frame): seq<Callback> {
    if Loses(g, f) then [OnFaceLost] else if Confident(f) && !g.present then [OnFacePresent] else []
  }

  // ---- The engine -----------------------------------------------------------------------

  function FrameStep(e: Engine, f: Frame): Engine {
    if e.detector.state.Idle? then e
    else Engine(if Confident(f) then DetectorStep(e.detector, f.ears) else e.detector,
                GateStep(e.gate, f),
                e.log + GateEvents(e.gate, f) + if Confident(f) && Fires(e.detector, f.ears) then [OnBlink] else [])
  }

  function StopStep(e: Engine): Engine {
    e.(detector := e.detector.(state := Idle))
  }

  function Step(e: Engine, ev: Event): Engine {
    match ev
    case Start => Started
    case Stop => StopStep(e)
    case OnFrame(f) => FrameStep(e, f)
  }

  // ---- What one frame does --------------------------------------------------------------

  /** A face without a confidence, or with one of at least 0.5, seen while calibrating: positive
      ratios are collected, and the thirtieth frame ends the calibration with 0.75 of the mean of ten
      or more of them as threshold; whatever was absent is present now. */
  lemma CalibrationEffect(e: Engine, confidence: Option<real>, ears: Ears)
    requires e.detector.state == Calibrating && (confidence == None || confidence.value >= 0.5)
    ensures var e', d := Step(e, OnFrame(Face(confidence, ears))), e.detector;
            var l := d.left.samples + if ears.left > 0.0 then [ears.left] else [];
            var r := d.right.samples + if ears.right > 0.0 then [ears.right] else [];
            && e'.detector.calibrated == d.calibrated + 1 && e'.detector.left.samples == l && e'.detector.right.samples == r
            && e'.detector.state == (if d.calibrated + 1 >= 30 then Running else Calibrating)
            && e'.detector.left.threshold == (if d.calibrated + 1 >= 30 && |l| >= 10 then 0.75 * (Sum(l) / |l| as real) else d.left.threshold)
            && e'.detector.right.threshold == (if d.calibrated + 1 >= 30 && |r| >= 10 then 0.75 * (Sum(r) / |r| as real) else d.right.threshold)
            && e'.gate == Gate(true, 0) && e'.log == e.log + if e.gate.present then [] else [OnFacePresent]
  {
  }

  /** The same face while running: each ratio is smoothed, 70% new and 30% old, a smoothed ratio below
      the threshold counts up and any other one resets the count, and a blink is reported when either
      count has reached two and none was since both were last zero. */
  lemma DetectionEffect(e: Engine, confidence: Option<real>, ears: Ears)
    requires e.detector.state == Running && (confidence == None || confidence.value >= 0.5)
    ensures var e', d := Step(e, OnFrame(Face(confidence, ears))), e.detector;
            var l := if d.left.smoothed == None then ears.left else 0.7 * ears.left + 0.3 * d.left.smoothed.value;
            var r := if d.right.smoothed == None then ears.right else 0.7 * ears.right + 0.3 * d.right.smoothed.value;
            var lows, rights := if l < d.left.threshold then d.left.below + 1 else 0, if r < d.right.threshold then d.right.below + 1 else 0;
            var blinks := !d.fired && (lows >= 2 || rights >= 2);
            && e'.detector == Detector(Running, d.calibrated, Eye(d.left.samples, d.left.threshold, lows, Some(l)),
                                       Eye(d.right.samples, d.right.threshold, rights, Some(r)), blinks || (d.fired && lows + rights > 0))
            && e'.gate == Gate(true, 0)
            && e'.log == e.log + (if e.gate.present then [] else [OnFacePresent]) + if blinks then [OnBlink] else []
  {
  }

  /** The third frame in a row without a face loses it; a frame that is not ready, throws, or shows a
      face with less confidence is skipped; a stopped engine does nothing. */
  lemma OtherFramesEffect(e: Engine, f: Frame)
    ensures e.detector.state == Idle ==> Step(e, OnFrame(f)) == e
    ensures e.detector.state != Idle && f == NoFace ==>
              var lost := e.gate.present && e.gate.noFaces + 1 == 3;
              Step(e, OnFrame(f)) == e.(gate := Gate(e.gate.present && !lost, e.gate.noFaces + 1), log := e.log + if lost then [OnFaceLost] else [])
    ensures f == NotReady || f == RunnerThrows || (f.Face? && f.confidence.Some? && f.confidence.value < 0.5) ==> Step(e, OnFrame(f)) == e
  {
    assert e.log + [] == e.log;
  }

  /** A start forgets everything, with thresholds of 0.25; a stop only stops. */
  lemma StartEffect(e: Engine)
    ensures var eye := Eye([], 0.25, 0, None);
            Step(e, Start) == Engine(Detector(Calibrating, 0, eye, eye, false), Gate(false, 0), [])
    ensures Step(e, Stop) == e.(detector := e.detector.(state := Idle))
  {
  }

  const NewEngine := StopStep(Started)

  function Run(evs: seq<Event>): Engine {
    if evs == [] then NewEngine else Step(Run(evs[..|evs| - 1]), evs[|evs| - 1])
  }

  /** The engine after a start and these frames. */
  function Session(fs: seq<Frame>): Engine {
    if fs == [] then Started else FrameStep(Session(fs[..|fs| - 1]), fs[|fs| - 1])
  }

  /** The frames since the last start. */
  function SinceStart(evs: seq<Event>): seq<Frame> {
    if evs == [] then []
    else
      var n := |evs| - 1;
      match evs[n]
      case Start => []
      case Stop => SinceStart(evs[..n])
      case OnFrame(f) => SinceStart(evs[..n]) + [f]
  }

  lemma {:induction false} SessionsStayActive(fs: seq<Frame>)
    ensures !Session(fs).detector.state.Idle?
  {
    if fs != [] {
      SessionsStayActive(fs[..|fs| - 1]);
    }
  }

  /** A run takes every event and a session every frame, each from a fresh start. */
  lemma RunTakesEachEvent(evs: seq<Event>, ev: Event, fs: seq<Frame>, f: Frame)
    ensures Run([]) == NewEngine && Run(evs + [ev]) == Step(Run(evs), ev)
    ensures Session([]) == Started && Session(fs + [f]) == Step(Session(fs), OnFrame(f))
  {
    assert (evs + [ev])[..|evs|] == evs && (fs + [f])[..|fs|] == fs;
  }

  /** Whatever came before, a running engine is in the session of the frames since its start. */
  lemma {:induction false} RunsAreSessions(evs: seq<Event>)
    ensures Run(evs).detector.state.Idle? || Run(evs) == Session(SinceStart(evs))
  {
    if evs != [] {
      RunsAreSessions(evs[..|evs| - 1]);
      if evs[|evs| - 1].OnFrame? {
        var fs := SinceStart(evs[..|evs| - 1]);
        assert (fs + [evs[|evs| - 1].frame])[..|fs|] == fs;
      }
    }
  }

  // ---- Only confident frames reach the detector -----------------------------------------

  function Confidents(fs: seq<Frame>): seq<Ears> {
    if fs == [] then []
    else Confidents(fs[..|fs| - 1]) + if Confident(fs[|fs| - 1]) then [fs[|fs| - 1].ears] else []
  }

  /** The detector after a start and confident frames with these ratios. */
  function Detected(cs: seq<Ears>): Detector {
    if cs == [] then NewDetector else DetectorStep(Detected(cs[..|cs| - 1]), cs[|cs| - 1])
  }

  /** Frames without pixels, without a face, without confidence or with a throwing runner change
      nothing about calibration and blinks: the detector is a function of the confident frames. */
  lemma {:induction false} SkippedFramesDoNotMatter(fs: seq<Frame>)
    ensures Session(fs).detector == Detected(Confidents(fs))
  {
    if fs != [] {
      var before := fs[..|fs| - 1];
      SkippedFramesDoNotMatter(before);
      SessionsStayActive(before);
      if Confident(fs[|fs| - 1]) {
        assert Confidents(fs)[..|Confidents(before)|] == Confidents(before);
      } else {
        assert Confidents(fs) == Confidents(before);
      }
    }
  }

  // ---- What calibration computes --------------------------------------------------------

  /** The positive ratios of one eye, in order. */
  function Positives(cs: seq<Ears>, side: Side): seq<real> {
    if cs == [] then []
    else
      var ear := EarOf(cs[|cs| - 1], side);
      Positives(cs[..|cs| - 1], side) + if ear > 0.0 then [ear] else []
  }

  lemma {:induction false} PositivesArePositive(cs: seq<Ears>, side: Side)
    ensures forall k :: 0 <= k < |Positives(cs, side)| ==> Positives(cs, side)[k] > 0.0
  {
    if cs != [] {
      PositivesArePositive(cs[..|cs| - 1], side);
    }
  }

  lemma {:induction false} SumIsPositive(samples: seq<real>)
    requires samples != [] && forall k :: 0 <= k < |samples| ==> samples[k] > 0.0
    ensures Sum(samples) > 0.0
  {
    var n := |samples| - 1;
    if n > 0 {
      SumIsPositive(samples[..n]);
    } else {
      assert samples[..0] == [];
    }
  }

  /** An eye while calibrating, and the threshold it ends up with. */
  function Sampling(cs: seq<Ears>, side: Side): Eye {
    Eye(Positives(cs, side), DEFAULT_THRESHOLD, 0, None)
  }

  function Calibrated(cs: seq<Ears>, side: Side): real {
    Threshold(Positives(cs, side), DEFAULT_THRESHOLD)
  }

  /** Adding up and picking out: parts add up to the whole, a single one counts as itself, and only
      what is positive is picked. */
  lemma {:induction false} SumsAddUp(a: seq<real>, b: seq<real>, x: real)
    ensures Sum([]) == 0.0 && Sum([x]) == x && Sum(a + b) == Sum(a) + Sum(b)
  {
    assert [x][..0] == [];
    if b == [] {
      assert a + b == a;
    } else {
      var n := |b| - 1;
      assert (a + b)[..|a| + n] == a + b[..n] && (a + b)[|a| + n] == b[n];
      SumsAddUp(a, b[..n], x);
    }
  }

  lemma {:induction false} PositivesArePicked(a: seq<Ears>, b: seq<Ears>, ears: Ears)
    ensures Positives([ears], Left) == if ears.left > 0.0 then [ears.left] else []
    ensures Positives([ears], Right) == if ears.right > 0.0 then [ears.right] else []
    ensures Positives(a + b, Left) == Positives(a, Left) + Positives(b, Left)
    ensures Positives(a + b, Right) == Positives(a, Right) + Positives(b, Right)
  {
    assert [ears][..0] == [];
    if b == [] {
      assert a + b == a;
    } else {
      var n := |b| - 1;
      assert (a + b)[..|a| + n] == a + b[..n] && (a + b)[|a| + n] == b[n];
      PositivesArePicked(a, b[..n], ears);
    }
  }

  lemma CalibratedIsPositive(cs: seq<Ears>, side: Side)
    ensures Calibrated(cs, side) > 0.0
  {
    PositivesArePositive(cs, side);
    if |Positives(cs, side)| >= MIN_CALIBRATION_SAMPLES {
      SumIsPositive(Positives(cs, side));
    }
  }

  lemma OneMoreSample(cs: seq<Ears>, side: Side)
    requires cs != []
    ensures Sampling(cs, side) == Sampled(Sampling(cs[..|cs| - 1], side), EarOf(cs[|cs| - 1], side))
  {
  }

  lemma {:induction false} CalibrationCollects(cs: seq<Ears>)
    requires |cs| < CALIBRATION_FRAMES
    ensures Detected(cs) == Detector(Calibrating, |cs|, Sampling(cs, Left), Sampling(cs, Right), false)
  {
    if cs != [] {
      CalibrationCollects(cs[..|cs| - 1]);
      OneMoreSample(cs, Left);
      OneMoreSample(cs, Right);
    }
  }

  lemma CalibrationEnds(cs: seq<Ears>)
    requires |cs| == CALIBRATION_FRAMES
    ensures Detected(cs) == Detector(Running, CALIBRATION_FRAMES, Finalized(Sampling(cs, Left)), Finalized(Sampling(cs, Right)), false)
  {
    CalibrationCollects(cs[..|cs| - 1]);
    OneMoreSample(cs, Left);
    OneMoreSample(cs, Right);
    assert Detected(cs) == Calibrate(Detected(cs[..|cs| - 1]), cs[|cs| - 1]);
  }

  lemma ThresholdsStay(d: Detector, ears: Ears)
    requires d.state.Running?
    ensures var d' := DetectorStep(d, ears); d'.state.Running? && d'.left.threshold == d.left.threshold && d'.right.threshold == d.right.threshold
  {
  }

  lemma {:induction false} ThresholdsAreCalibrated(cs: seq<Ears>)
    ensures |cs| < CALIBRATION_FRAMES <==> Detected(cs).state.Calibrating?
    ensures |cs| >= CALIBRATION_FRAMES ==>
              && Detected(cs).state.Running?
              && Detected(cs).left.threshold == Calibrated(cs[..CALIBRATION_FRAMES], Left) > 0.0
              && Detected(cs).right.threshold == Calibrated(cs[..CALIBRATION_FRAMES], Right) > 0.0
  {
    if |cs| < CALIBRATION_FRAMES {
      CalibrationCollects(cs);
    } else if |cs| == CALIBRATION_FRAMES {
      CalibrationEnds(cs);
      assert cs[..CALIBRATION_FRAMES] == cs;
      CalibratedIsPositive(cs, Left);
      CalibratedIsPositive(cs, Right);
    } else {
      ThresholdsAreCalibrated(cs[..|cs| - 1]);
      assert cs[..|cs| - 1][..CALIBRATION_FRAMES] == cs[..CALIBRATION_FRAMES];
      ThresholdsStay(Detected(cs[..|cs| - 1]), cs[|cs| - 1]);
    }
  }

  /** The first 30 confident frames, and nothing else, calibrate: each eye's threshold is 0.75 of
      the mean of its positive ratios if there are at least ten, and 0.25 otherwise. */
  lemma {:induction false} CalibrationResult(cs: seq<Ears>)
    ensures |cs| < 30 <==> Detected(cs).state == Calibrating
    ensures |cs| >= 30 ==>
              var l, r, d := Positives(cs[..30], Left), Positives(cs[..30], Right), Detected(cs);
              && d.state == Running
              && 0.0 < d.left.threshold == (if |l| >= 10 then 0.75 * (Sum(l) / |l| as real) else 0.25)
              && 0.0 < d.right.threshold == (if |r| >= 10 then 0.75 * (Sum(r) / |r| as real) else 0.25)
  {
    ThresholdsAreCalibrated(cs);
  }

  // ---- Isolated dips never fire ---------------------------------------------------------

  /** The mean open ratio a threshold came from. */
  function Baseline(threshold: real): real {
    threshold / THRESHOLD_RATIO
  }

  /** An eye is below its baseline in the frame. */
  predicate Dips(d: Detector, ears: Ears) {
    ears.left < Baseline(d.left.threshold) || ears.right < Baseline(d.right.threshold)
  }

  /** Frame `n` comes after calibration and is a dip. */
  predicate DipAt(cs: seq<Ears>, n: nat)
    requires n < |cs|
  {
    n >= CALIBRATION_FRAMES && Dips(Detected(cs[..n]), cs[n])
  }

  /** Neither the first frame after calibration nor the one after a dip is a dip. */
  predicate DipsAreIsolated(cs: seq<Ears>) {
    forall n :: 0 <= n < |cs| ==> IsIsolated(cs, n)
  }

  predicate IsIsolated(cs: seq<Ears>, n: nat)
    requires n < |cs|
  {
    DipAt(cs, n) ==> n > CALIBRATION_FRAMES && !DipAt(cs, n - 1)
  }

  /** How far an eye can be from its baseline after a dip or a frame that was none. */
  predicate EyeIsQuiet(eye: Eye, dipped: bool) {
    && eye.threshold > 0.0 && eye.smoothed.Some?
    && eye.smoothed.value >= Baseline(eye.threshold) * (if dipped then 3.0 / 13.0 else 10.0 / 13.0)
    && eye.below <= if dipped then 1 else 0
  }

  lemma TrackingStaysQuiet(eye: Eye, raw: Ear, dipped: bool, dips: bool)
    requires eye.threshold > 0.0
    requires !dips ==> raw >= Baseline(eye.threshold)
    requires (eye.smoothed.None? && !dips) || (EyeIsQuiet(eye, dipped) && !(dipped && dips))
    ensures EyeIsQuiet(Tracked(eye, raw), dips)
  {
    var b := Baseline(eye.threshold);
    assert eye.threshold == 0.75 * b;
  }

  predicate IsQuiet(d: Detector, dipped: bool) {
    d.state.Running? && !d.fired && EyeIsQuiet(d.left, dipped) && EyeIsQuiet(d.right, dipped)
  }

  lemma DipsOfPrefix(cs: seq<Ears>, n: nat)
    requires n <= |cs|
    ensures forall k :: 0 <= k < n ==> DipAt(cs[..n], k) == DipAt(cs, k)
    ensures DipsAreIsolated(cs) ==> DipsAreIsolated(cs[..n])
  {
    forall k | 0 <= k < n ensures DipAt(cs[..n], k) == DipAt(cs, k) {
      assert cs[..n][..k] == cs[..k];
    }
    forall k | 0 <= k < n && IsIsolated(cs, k) ensures IsIsolated(cs[..n], k) {
      assert DipAt(cs[..n], k) == DipAt(cs, k) && (k > 0 ==> DipAt(cs[..n], k - 1) == DipAt(cs, k - 1));
    }
  }

  lemma {:induction false} StaysQuiet(cs: seq<Ears>)
    requires |cs| > CALIBRATION_FRAMES && DipsAreIsolated(cs)
    ensures IsQuiet(Detected(cs), DipAt(cs, |cs| - 1))
    ensures !Fires(Detected(cs[..|cs| - 1]), cs[|cs| - 1])
  {
    var n := |cs| - 1;
    assert DipAt(cs, n) == Dips(Detected(cs[..n]), cs[n]) && IsIsolated(cs, n);
    if n > CALIBRATION_FRAMES {
      DipsOfPrefix(cs, n);
      StaysQuiet(cs[..n]);
      assert DipAt(cs[..n], n - 1) == DipAt(cs, n - 1);
      QuietStep(Detected(cs[..n]), cs[n], DipAt(cs, n - 1));
    } else {
      QuietStart(cs[..n], cs[n]);
    }
  }

  lemma QuietStep(d: Detector, ears: Ears, dipped: bool)
    requires IsQuiet(d, dipped) && !(dipped && Dips(d, ears))
    ensures IsQuiet(DetectorStep(d, ears), Dips(d, ears)) && !Fires(d, ears)
  {
    TrackingStaysQuiet(d.left, ears.left, dipped, Dips(d, ears));
    TrackingStaysQuiet(d.right, ears.right, dipped, Dips(d, ears));
  }

  lemma QuietStart(cs: seq<Ears>, ears: Ears)
    requires |cs| == CALIBRATION_FRAMES && !Dips(Detected(cs), ears)
    ensures IsQuiet(DetectorStep(Detected(cs), ears), false) && !Fires(Detected(cs), ears)
  {
    var d := Detected(cs);
    CalibrationEnds(cs);
    CalibratedIsPositive(cs, Left);
    CalibratedIsPositive(cs, Right);
    TrackingStaysQuiet(d.left, ears.left, false, false);
    TrackingStaysQuiet(d.right, ears.right, false, false);
  }

  lemma {:induction false} QuietSessions(fs: seq<Frame>)
    requires DipsAreIsolated(Confidents(fs))
    ensures OnBlink !in Session(fs).log
  {
    if fs != [] {
      var before, f := fs[..|fs| - 1], fs[|fs| - 1];
      var cs, bs := Confidents(fs), Confidents(before);
      SkippedFramesDoNotMatter(before);
      DipsOfPrefix(cs, |bs|);
      assert cs[..|bs|] == bs;
      QuietSessions(before);
      if Confident(f) {
        CalibrationResult(bs);
        if |cs| > CALIBRATION_FRAMES {
          StaysQuiet(cs);
        }
      }
    }
  }

  lemma DipsAreBelowTheBaseline(cs: seq<Ears>, n: nat)
    requires CALIBRATION_FRAMES <= n < |cs|
    ensures var d := Detected(cs[..CALIBRATION_FRAMES]);
            DipAt(cs, n) <==> cs[n].left < d.left.threshold / 0.75 || cs[n].right < d.right.threshold / 0.75
  {
    CalibrationResult(cs[..n]);
    CalibrationResult(cs[..CALIBRATION_FRAMES]);
    assert cs[..n][..CALIBRATION_FRAMES] == cs[..CALIBRATION_FRAMES];
    assert cs[..CALIBRATION_FRAMES][..CALIBRATION_FRAMES] == cs[..CALIBRATION_FRAMES];
  }

  /** If the first confident frame after calibration has both eyes at their baseline, the threshold
      over 0.75, and so has every one that follows one that has not, no blink is reported, in a
      session of any length. */
  lemma {:induction false} IsolatedDipsNeverFire(fs: seq<Frame>, left: real, right: real)
    requires var cs := Confidents(fs);
             |cs| > 30 ==>
               && left == Detected(cs[..30]).left.threshold / 0.75 && right == Detected(cs[..30]).right.threshold / 0.75
               && cs[30].left >= left && cs[30].right >= right
    requires var cs := Confidents(fs);
             forall m, n :: 30 <= m < n < |cs| && n == m + 1 && (cs[m].left < left || cs[m].right < right) ==>
               cs[n].left >= left && cs[n].right >= right
    ensures OnBlink !in Session(fs).log
  {
    var cs := Confidents(fs);
    forall n | 0 <= n < |cs| ensures IsIsolated(cs, n) {
      if n >= CALIBRATION_FRAMES {
        DipsAreBelowTheBaseline(cs, n);
        if n > CALIBRATION_FRAMES {
          DipsAreBelowTheBaseline(cs, n - 1);
        }
      }
    }
    QuietSessions(fs);
  }

  // ---- One closure, one blink -----------------------------------------------------------

  /** Frame `n` of the session reports a blink. */
  predicate BlinkAt(fs: seq<Frame>, n: nat)
    requires n < |fs|
  {
    Confident(fs[n]) && Fires(Session(fs[..n]).detector, fs[n].ears)
  }

  predicate BothOpen(d: Detector) {
    d.left.below == 0 && d.right.below == 0
  }

  /** A latched detector that is no longer latched has had both eyes open. */
  lemma {:induction false} UnlatchingNeedsBothOpen(fs: seq<Frame>, n: nat)
    requires n <= |fs| && Session(fs[..n]).detector.fired && !Session(fs).detector.fired
    ensures exists m :: n < m <= |fs| && BothOpen(Session(fs[..m]).detector)
    decreases |fs| - n
  {
    assert fs[..|fs|] == fs;
    assert fs[..n + 1][..n] == fs[..n];
    SessionsStayActive(fs[..n]);
    if Session(fs[..n + 1]).detector.fired {
      UnlatchingNeedsBothOpen(fs, n + 1);
    } else {
      assert BothOpen(Session(fs[..n + 1]).detector);
    }
  }

  /** Between two blinks of a session there is a frame after which neither eye is below its
      threshold: one closure never fires twice. */
  lemma BlinksAreSeparated(fs: seq<Frame>, i: nat, j: nat)
    requires i < j < |fs| && BlinkAt(fs, i) && BlinkAt(fs, j)
    ensures exists m :: i + 1 < m <= j && Session(fs[..m]).detector.left.below == 0 && Session(fs[..m]).detector.right.below == 0
  {
    assert fs[..i + 1][..i] == fs[..i] && fs[..j + 1][..j] == fs[..j];
    assert fs[..j][..i + 1] == fs[..i + 1];
    var before := Session(fs[..j]).detector;
    SessionsStayActive(fs[..i]);
    assert Session(fs[..i + 1]).detector.fired;
    assert !before.fired;
    UnlatchingNeedsBothOpen(fs[..j], i + 1);
    var m :| i + 1 < m <= j && BothOpen(Session(fs[..j][..m]).detector);
    assert fs[..j][..m] == fs[..m];
  }

  lemma BlinksOfPrefix(fs: seq<Frame>, n: nat)
    requires n <= |fs|
    ensures forall k :: 0 <= k < n ==> BlinkAt(fs[..n], k) == BlinkAt(fs, k)
  {
    forall k | 0 <= k < n ensures BlinkAt(fs[..n], k) == BlinkAt(fs, k) {
      assert fs[..n][..k] == fs[..k];
    }
  }

  lemma LoggedAtOnce(e: Engine, f: Frame)
    requires !e.detector.state.Idle?
    ensures OnBlink in FrameStep(e, f).log <==> OnBlink in e.log || (Confident(f) && Fires(e.detector, f.ears))
  {
  }

  /** A frame that reports a blink appends that callback last, and no other frame appends it. */
  lemma BlinkAtIsLogged(fs: seq<Frame>, n: nat)
    requires n < |fs|
    ensures var log, log' := Session(fs[..n]).log, Session(fs[..n + 1]).log;
            && log <= log'
            && (BlinkAt(fs, n) <==> |log'| > |log| && log'[|log'| - 1] == OnBlink)
            && (OnBlink in log'[|log|..] <==> BlinkAt(fs, n))
  {
    SessionsStayActive(fs[..n]);
    assert fs[..n + 1][..n] == fs[..n];
  }

  /** The log holds a blink exactly when some frame reported one. */
  lemma {:induction false} LoggedBlinks(fs: seq<Frame>)
    ensures OnBlink in Session(fs).log <==> exists n :: 0 <= n < |fs| && BlinkAt(fs, n)
  {
    if fs != [] {
      var n := |fs| - 1;
      LoggedBlinks(fs[..n]);
      SessionsStayActive(fs[..n]);
      LoggedAtOnce(Session(fs[..n]), fs[n]);
      assert OnBlink in Session(fs).log <==> OnBlink in Session(fs[..n]).log || BlinkAt(fs, n);
      SomeBlink(fs, n);
    }
  }

  lemma SomeBlink(fs: seq<Frame>, n: nat)
    requires |fs| == n + 1
    ensures (exists k :: 0 <= k < |fs| && BlinkAt(fs, k)) <==> (exists k :: 0 <= k < n && BlinkAt(fs[..n], k)) || BlinkAt(fs, n)
  {
    BlinksOfPrefix(fs, n);
    if k :| 0 <= k < n && BlinkAt(fs[..n], k) {
      assert BlinkAt(fs, k);
    }
  }

  /** After these frames the eye's smoothed ratio is below its threshold. */
  predicate IsLow(eye: Eye) {
    eye.smoothed.Some? && eye.smoothed.value < eye.threshold
  }

  lemma {:induction false} CountersTellLowFrames(cs: seq<Ears>, side: Side)
    ensures EyeOf(Detected(cs), side).below > 0 <==> |cs| > CALIBRATION_FRAMES && IsLow(EyeOf(Detected(cs), side))
  {
    if |cs| > CALIBRATION_FRAMES {
      CalibrationResult(cs[..|cs| - 1]);
    } else if |cs| == CALIBRATION_FRAMES {
      CalibrationEnds(cs);
    } else {
      CalibrationCollects(cs);
    }
  }

  /** A blink needs two consecutive confident frames after calibration with the same eye low. */
  lemma {:induction false} BlinkNeedsTwoLowFrames(cs: seq<Ears>)
    requires cs != [] && Fires(Detected(cs[..|cs| - 1]), cs[|cs| - 1])
    ensures |cs| > 31
    ensures var d, d' := Detected(cs[..|cs| - 1]), Detected(cs);
            || (&& d.left.smoothed.Some? && d.left.smoothed.value < d.left.threshold
                && d'.left.smoothed.Some? && d'.left.smoothed.value < d'.left.threshold)
            || (&& d.right.smoothed.Some? && d.right.smoothed.value < d.right.threshold
                && d'.right.smoothed.Some? && d'.right.smoothed.value < d'.right.threshold)
  {
    var before := cs[..|cs| - 1];
    CalibrationResult(before);
    var side := if Detected(cs).left.below >= BLINK_FRAMES then Left else Right;
    CountersTellLowFrames(before, side);
    CountersTellLowFrames(cs, side);
    assert EyeOf(Detected(cs), side).below >= BLINK_FRAMES && EyeOf(Detected(before), side).below > 0;
  }

  /** With both eyes open and the latch off, two fully closed frames report a blink if and only
      if one eye's smoothed ratio was less than 10/3 of its threshold. */
  lemma ClosureFiresIff(d: Detector)
    requires d.state == Running && !d.fired && d.left.below == 0 && d.right.below == 0 && d.left.threshold > 0.0 && d.right.threshold > 0.0
    requires d.left.smoothed.Some? && d.right.smoothed.Some? && d.left.smoothed.value >= 0.0 && d.right.smoothed.value >= 0.0
    ensures var closed := Ears(0.0, 0.0);
            && !Fires(d, closed)
            && (Fires(DetectorStep(d, closed), closed) <==>
                  3.0 * d.left.smoothed.value < 10.0 * d.left.threshold || 3.0 * d.right.smoothed.value < 10.0 * d.right.threshold)
  {
    var closed := Ears(0.0, 0.0);
    var next := DetectorStep(d, closed);
    assert next.left.smoothed.value == 0.3 * d.left.smoothed.value && next.right.smoothed.value == 0.3 * d.right.smoothed.value;
  }

  // ---- Face presence --------------------------------------------------------------------

  /** Frames without a face since the last confident one. */
  function Misses(fs: seq<Frame>): nat {
    if fs == [] then 0
    else
      var n := |fs| - 1;
      if fs[n].NoFace? then Misses(fs[..n]) + 1 else if Confident(fs[n]) then 0 else Misses(fs[..n])
  }

  /** The face counts as present exactly when a confident one was seen and fewer than three frames
      without any came since. */
  lemma {:induction false} FacePresenceIsExact(fs: seq<Frame>)
    ensures Session(fs).gate == Gate(Confidents(fs) != [] && Misses(fs) < 3, Misses(fs))
  {
    if fs != [] {
      FacePresenceIsExact(fs[..|fs| - 1]);
      SessionsStayActive(fs[..|fs| - 1]);
    }
  }

  /** `log[j]` is the last face callback before position `n`. */
  predicate LastFaceBefore(log: seq<Callback>, j: int, n: int) {
    0 <= j < n <= |log| && log[j] != OnBlink && forall k :: j < k < n ==> log[k] == OnBlink
  }

  /** No face callback before position `n`. */
  predicate NoFaceBefore(log: seq<Callback>, n: int) {
    0 <= n <= |log| && forall k :: 0 <= k < n ==> log[k] == OnBlink
  }

  /** Each face callback differs from the one before it, the first is a presence, and the last tells
      whether the face is present. */
  ghost predicate Tells(log: seq<Callback>, present: bool) {
    && (forall i, j :: 0 <= i < j < |log| && log[j] != OnBlink && LastFaceBefore(log, i, j) ==> log[i] != log[j])
    && (forall j :: 0 <= j < |log| && log[j] != OnBlink && NoFaceBefore(log, j) ==> log[j] == OnFacePresent)
    && (forall i :: LastFaceBefore(log, i, |log|) ==> (present <==> log[i] == OnFacePresent))
    && (NoFaceBefore(log, |log|) ==> !present)
  }

  lemma OneMoreCallback(log: seq<Callback>, c: Callback)
    ensures forall i, j :: 0 <= i < j <= |log| ==> (LastFaceBefore(log + [c], i, j) <==> LastFaceBefore(log, i, j))
    ensures forall j :: 0 <= j <= |log| ==> (NoFaceBefore(log + [c], j) <==> NoFaceBefore(log, j))
  {
    forall i, j | 0 <= i < j <= |log| ensures LastFaceBefore(log + [c], i, j) <==> LastFaceBefore(log, i, j) {
      assert (log + [c])[..j] == log[..j];
      assert forall k :: 0 <= k < j ==> (log + [c])[k] == log[k];
    }
    forall j | 0 <= j <= |log| ensures NoFaceBefore(log + [c], j) <==> NoFaceBefore(log, j) {
      assert forall k :: 0 <= k < j ==> (log + [c])[k] == log[k];
    }
  }

  lemma OneMoreEvent(log: seq<Callback>, c: Callback, present: bool)
    requires Tells(log, present)
    requires c.OnFacePresent? ==> !present
    requires c.OnFaceLost? ==> present
    ensures Tells(log + [c], if c.OnBlink? then present else c.OnFacePresent?)
  {
    var log', n := log + [c], |log|;
    OneMoreCallback(log, c);
    forall i, j | 0 <= i < j < |log'| && log'[j] != OnBlink && LastFaceBefore(log', i, j) ensures log'[i] != log'[j] {
      assert LastFaceBefore(log, i, j);
    }
    forall j | 0 <= j < |log'| && log'[j] != OnBlink && NoFaceBefore(log', j) ensures log'[j] == OnFacePresent {
      assert NoFaceBefore(log, j);
    }
    forall i | LastFaceBefore(log', i, |log'|)
      ensures (if c.OnBlink? then present else c.OnFacePresent?) <==> log'[i] == OnFacePresent
    {
      if i < n {
        assert log'[n] == OnBlink && LastFaceBefore(log, i, n);
      }
    }
    if NoFaceBefore(log', |log'|) {
      assert log'[n] == OnBlink && NoFaceBefore(log, n);
    }
  }

  lemma EventsAlternate(log: seq<Callback>, g: Gate, f: Frame)
    requires Tells(log, g.present)
    ensures Tells(log + GateEvents(g, f), GateStep(g, f).present)
  {
    if GateEvents(g, f) == [] {
      assert log + GateEvents(g, f) == log;
    } else {
      OneMoreEvent(log, GateEvents(g, f)[0], g.present);
    }
  }

  lemma {:induction false} SessionsTell(fs: seq<Frame>)
    ensures Tells(Session(fs).log, Session(fs).gate.present)
  {
    if fs != [] {
      var before, f := fs[..|fs| - 1], fs[|fs| - 1];
      SessionsTell(before);
      SessionsStayActive(before);
      var e := Session(before);
      var log := e.log + GateEvents(e.gate, f);
      EventsAlternate(e.log, e.gate, f);
      OneMoreEvent(log, OnBlink, GateStep(e.gate, f).present);
      assert Session(fs).log == log || Session(fs).log == log + [OnBlink];
    }
  }

  /** The face callbacks of a session strictly alternate: of two with only blinks between them one is
      a presence and the other a loss. */
  lemma {:induction false} FaceEventsAlternate(fs: seq<Frame>, i: nat, j: nat)
    requires i < j < |Session(fs).log| && Session(fs).log[i] != OnBlink && Session(fs).log[j] != OnBlink
    requires forall k :: i < k < j ==> Session(fs).log[k] == OnBlink
    ensures {Session(fs).log[i], Session(fs).log[j]} == {OnFacePresent, OnFaceLost}
  {
    SessionsTell(fs);
    assert LastFaceBefore(Session(fs).log, i, j);
  }

  /** The first of them is a presence, and the face is present exactly after a presence. */
  lemma {:induction false} LastFaceEventTells(fs: seq<Frame>, j: nat)
    ensures var log, present := Session(fs).log, Session(fs).gate.present;
            && (j < |log| && log[j] != OnBlink && (forall k :: 0 <= k < j ==> log[k] == OnBlink) ==> log[j] == OnFacePresent)
            && (j < |log| && log[j] != OnBlink && (forall k :: j < k < |log| ==> log[k] == OnBlink) ==> (present <==> log[j] == OnFacePresent))
            && ((forall k :: 0 <= k < |log| ==> log[k] == OnBlink) ==> !present)
  {
    var log := Session(fs).log;
    SessionsTell(fs);
    if j < |log| {
      if forall k :: 0 <= k < j ==> log[k] == OnBlink {
        assert NoFaceBefore(log, j);
      }
      if log[j] != OnBlink && forall k :: j < k < |log| ==> log[k] == OnBlink {
        assert LastFaceBefore(log, j, |log|);
      }
    }
    if forall k :: 0 <= k < |log| ==> log[k] == OnBlink {
      assert NoFaceBefore(log, |log|);
    }
  }
}
