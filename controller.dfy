/** The scan phase controller as a state machine over values: the session
    state it owns, its response to each timer callback and event, and the
    properties of those responses. The scanner class follows it exactly. */
module Controller {
  import opened Wrappers
  import opened Phases
  import opened Blend

  /** Chance that a scan is judged "cool". */
  const CoolProbability: real := 0.9
  /** Lowest displayed temperature of a cool and of a hot outcome; each band is 10 wide. */
  const CoolBase: real := 80.0
  const HotBase: real := 90.0
  const TemperatureSpread: real := 10.0

  const CoolMessage: string := "Cool vibes detected. Come on in!"
  const HotMessage: string := "Whoa, you're on fire \U{2014} cool down and try again!"

  /** The result message shown for an outcome. */
  function Verdict(cool: bool): string {
    if cool then CoolMessage else HotMessage
  }

  /** The range the displayed temperature of an outcome is drawn from. */
  predicate InTemperatureBand(cool: bool, t: real) {
    if cool then CoolBase <= t < CoolBase + TemperatureSpread
    else HotBase <= t < HotBase + TemperatureSpread
  }

  /** Everything the controller keeps between callbacks. `result` is the
      message of the outcome (absent until it is drawn), `cameraOn` says that
      a stream is attached and ready. */
  datatype Session = Session(
    phase: Phase,
    phaseStart: int,
    result: Option<string>,
    isCool: bool,
    targetTemperature: real,
    showTemperature: bool,
    thermalProgress: real,
    cameraOn: bool)

  /** The phases before the outcome is drawn. */
  predicate BeforeOutcome(p: Phase) {
    p == Idle || p == Countdown || p == ScanDown || p == ThermalHoldAfterDown || p == ScanUp
  }

  /** The consistency of the session fields with the phase. */
  predicate Inv(s: Session) {
    && (BeforeOutcome(s.phase) ==>
          s.result == None && !s.isCool && s.targetTemperature == 0.0 && !s.showTemperature)
    && (!BeforeOutcome(s.phase) ==>
          && s.result == Some(Verdict(s.isCool))
          && (if s.showTemperature then InTemperatureBand(s.isCool, s.targetTemperature)
              else s.targetTemperature == 0.0))
    && (s.phase == Result ==> s.showTemperature)
  }

  /** The state on mount, before the camera has reported ready. */
  function Initial(now: int): Session {
    Session(Idle, now, None, false, 0.0, false, 0.0, false)
  }

  /** A phase change; the clock of the new phase starts at `now`. */
  function Enter(s: Session, p: Phase, now: int): Session {
    s.(phase := p, phaseStart := now)
  }

  function StopCamera(s: Session): Session {
    s.(cameraOn := false)
  }

  function CameraReady(s: Session): Session {
    s.(cameraOn := true)
  }

  /** The coin flip made on entering the hold after the upward sweep: cool
      exactly when `r` falls below the cool probability, with the matching
      message; nothing else changes. */
  function DecideOutcome(s: Session, r: real): (t: Session)
    ensures t.isCool <==> r < CoolProbability
    ensures t.result == Some(Verdict(t.isCool))
    ensures t.(isCool := s.isCool, result := s.result) == s
  {
    var cool := r < CoolProbability;
    s.(isCool := cool, result := Some(Verdict(cool)))
  }

  /** The delayed reveal of the temperature, drawn from a second random value:
      for a random value in [0,1) it lies in the band of the outcome. Only the
      temperature and its visibility change. */
  function RevealTemperature(s: Session, r: real): (t: Session)
    ensures 0.0 <= r < 1.0 ==> InTemperatureBand(s.isCool, t.targetTemperature)
    ensures t.showTemperature
    ensures t.(targetTemperature := s.targetTemperature, showTemperature := s.showTemperature) == s
  {
    var base := if s.isCool then CoolBase else HotBase;
    s.(targetTemperature := r * TemperatureSpread + base, showTemperature := true)
  }

  /** The restart after the result dwell: the outcome is forgotten and the
      session is the mount state again, except that the camera flag is kept. */
  function Restart(s: Session, now: int): (t: Session)
    ensures t == Initial(now).(cameraOn := s.cameraOn)
    ensures Inv(t)
  {
    s.(result := None, isCool := false, targetTemperature := 0.0, showTemperature := false,
       phase := Idle, phaseStart := now, thermalProgress := 0.0)
  }

  /** What the phase timer of `s` does when it fires at `now`. */
  function Advance(s: Session, now: int, r: real): Session
    requires IsTimed(s.phase)
  {
    match s.phase
    case Countdown => Enter(s, ScanDown, now)
    case ScanDown => Enter(s, ThermalHoldAfterDown, now)
    case ThermalHoldAfterDown => Enter(s, ScanUp, now)
    case ScanUp => DecideOutcome(Enter(s, ThermalHoldAfterUp, now), r)
    case ThermalHoldAfterUp => StopCamera(Enter(s, Result, now))
    case Result => Restart(s, now)
  }

  /** The phase timer is pending and its delay has passed. In the hold after
      the upward sweep it waits behind the earlier temperature timer. */
  predicate PhaseTimerDue(s: Session, now: int) {
    && IsTimed(s.phase)
    && now - s.phaseStart >= PhaseDuration(s.phase)
    && (s.phase == ThermalHoldAfterUp ==> s.showTemperature)
  }

  /** The temperature timer is pending and its delay has passed. */
  predicate TemperatureTimerDue(s: Session, now: int) {
    s.phase == ThermalHoldAfterUp && !s.showTemperature && now - s.phaseStart >= TemperatureRevealMs
  }

  /** One timer callback at time `now`: the earliest pending timer fires if it
      is due. `r` stands for the `Math.random()` value the callback draws. */
  function Tick(s: Session, now: int, r: real): (t: Session)
    ensures t.phase == s.phase || t.phase == NextPhase(s.phase)
    ensures t.phase != s.phase ==> t.phaseStart == now
    ensures t.phase == s.phase ==> t.phaseStart == s.phaseStart
    ensures t.cameraOn ==> s.cameraOn
    ensures t.cameraOn != s.cameraOn ==> s.phase == ThermalHoldAfterUp && t.phase == Result
    ensures t.thermalProgress == s.thermalProgress || t.phase == Idle
  {
    if TemperatureTimerDue(s, now) then RevealTemperature(s, r)
    else if PhaseTimerDue(s, now) then Advance(s, now, r)
    else s
  }

  /** The countdown animation reported completion; it is mounted only while
      the phase is the countdown. */
  function CountdownComplete(s: Session, now: int): (t: Session)
    ensures t.phase != s.phase <==> s.phase == Countdown
    ensures t.phase != s.phase ==> t.phase == ScanDown && t.phaseStart == now
    ensures t.(phase := s.phase, phaseStart := s.phaseStart) == s
  {
    if s.phase == Countdown then Enter(s, ScanDown, now) else s
  }

  /** The state after one iteration of the frame loop: nothing happens without a
      ready camera and a new video frame; otherwise the progress is published and,
      in the idle phase only, a detection by a loaded landmarker starts the
      countdown. */
  function Frame(s: Session, now: int, newFrame: bool, landmarkerReady: bool, faceCount: nat): (t: Session)
    ensures t.phase == s.phase || (s.phase == Idle && t.phase == Countdown && t.phaseStart == now)
    ensures t.phase == s.phase ==> t.phaseStart == s.phaseStart
    ensures t.(phase := s.phase, phaseStart := s.phaseStart, thermalProgress := s.thermalProgress) == s
    ensures s.cameraOn && newFrame && s.phaseStart <= now ==> 0.0 <= t.thermalProgress <= 1.0
  {
    if !s.cameraOn || !newFrame then s
    else
      var s1 := s.(thermalProgress := ThermalProgress(s.phase, now - s.phaseStart));
      if s.phase == Idle && landmarkerReady && faceCount > 0 then Enter(s1, Countdown, now) else s1
  }

  /** Whether a frame at `now` runs the blend loop. */
  predicate BlendApplies(s: Session, now: int) {
    IsThermalPhase(s.phase) && ThermalProgress(s.phase, now - s.phaseStart) > 0.0
  }

  /** The pixels one iteration of the frame loop leaves in the buffer. */
  function FrameBuffer(s: Session, now: int, newFrame: bool, buf: seq<Byte>): seq<Byte>
    requires IsPixelBuffer(buf)
  {
    if s.cameraOn && newFrame && BlendApplies(s, now) then
      Blended(buf, ThermalProgress(s.phase, now - s.phaseStart))
    else buf
  }

  /** Everything that can happen to the controller. */
  datatype Event =
    | TimerFired(now: int, r: real)
    | FrameArrived(now: int, newFrame: bool, landmarkerReady: bool, faceCount: nat)
    | CountdownFinished(now: int)
    | CameraStarted
    | CameraStopped

  /** Random values come from `Math.random()`, which lies in [0,1). */
  predicate ValidEvent(e: Event) {
    e.TimerFired? ==> 0.0 <= e.r < 1.0
  }

  function Step(s: Session, e: Event): Session {
    match e
    case TimerFired(now, r) => Tick(s, now, r)
    case FrameArrived(now, nf, ready, faces) => Frame(s, now, nf, ready, faces)
    case CountdownFinished(now) => CountdownComplete(s, now)
    case CameraStarted => CameraReady(s)
    case CameraStopped => StopCamera(s)
  }

  function Run(s: Session, es: seq<Event>): Session
    decreases |es|
  {
    if es == [] then s else Run(Step(s, es[0]), es[1..])
  }

  // ---------------------------------------------------------------------
  // Timers

  /** A timer callback changes the phase exactly when the phase timer is due;
      it then moves to the next phase of the cycle and restarts the phase
      clock, and otherwise leaves the phase clock alone. The idle phase has
      no timer at all, and only the timer that ends the second hold stops
      the camera. */
  lemma TimerAdvances(s: Session, now: int, r: real)
    ensures var t := Tick(s, now, r);
      && (t.phase != s.phase <==> PhaseTimerDue(s, now))
      && (t.phase != s.phase ==> t.phase == NextPhase(s.phase) && t.phaseStart == now)
      && (t.phase == s.phase ==> t.phaseStart == s.phaseStart)
      && (s.phase == Idle ==> t == s)
      && (t.cameraOn != s.cameraOn ==> s.phase == ThermalHoldAfterUp && t.phase == Result)
  {
  }

  /** The temperature reveal happens exactly when its timer is due, keeps the
      phase, and draws a temperature in the band of the outcome. */
  lemma TemperatureReveal(s: Session, now: int, r: real)
    requires Inv(s) && 0.0 <= r < 1.0
    ensures var t := Tick(s, now, r);
      && (t.showTemperature && !s.showTemperature <==> TemperatureTimerDue(s, now))
      && (TemperatureTimerDue(s, now) ==>
            t.phase == s.phase && t.isCool == s.isCool && InTemperatureBand(t.isCool, t.targetTemperature))
  {
  }

  /** Entering the hold after the upward sweep draws the outcome: cool exactly
      when the random value is below 0.9, with the matching message, and the
      temperature not yet shown. */
  lemma OutcomeDrawn(s: Session, now: int, r: real)
    requires Inv(s)
    requires s.phase == ScanUp && Tick(s, now, r).phase == ThermalHoldAfterUp
    ensures var t := Tick(s, now, r);
      && t.isCool == (r < CoolProbability)
      && t.result == Some(Verdict(r < CoolProbability))
      && !t.showTemperature && t.targetTemperature == 0.0
  {
  }

  /** Entering the result screen releases the camera. */
  lemma ResultStopsCamera(s: Session, now: int, r: real)
    requires s.phase != Result && Tick(s, now, r).phase == Result
    ensures !Tick(s, now, r).cameraOn
    ensures s.phase == ThermalHoldAfterUp && now - s.phaseStart >= HoldAfterUpMs
  {
  }

  /** Stopping the camera is idempotent and touches nothing else. */
  lemma StopCameraIdempotent(s: Session)
    ensures StopCamera(StopCamera(s)) == StopCamera(s)
    ensures !StopCamera(s).cameraOn && StopCamera(s).(cameraOn := s.cameraOn) == s
  {
  }

  /** The restart after the result dwell clears the outcome, the temperature
      and the progress, and returns to the idle phase with a fresh clock. */
  lemma RestartClears(s: Session, now: int, r: real)
    requires s.phase == Result && Tick(s, now, r).phase == Idle
    ensures var t := Tick(s, now, r);
      && t.result == None && !t.isCool && t.targetTemperature == 0.0
      && !t.showTemperature && t.thermalProgress == 0.0 && t.phaseStart == now
      && now - s.phaseStart >= ResultDwellMs
  {
  }

  // ---------------------------------------------------------------------
  // Events

  /** The countdown ends on its completion event only while it is running. */
  lemma CountdownCompletion(s: Session, now: int)
    ensures var t := CountdownComplete(s, now);
      && (t.phase != s.phase <==> s.phase == Countdown)
      && (s.phase == Countdown ==> t.phase == ScanDown && t.phaseStart == now)
  {
  }

  /** The detection gate: a frame starts the countdown exactly when the camera
      is ready, the frame is new, the phase is idle, a landmarker is loaded and
      it reports a face. */
  lemma DetectionGate(s: Session, now: int, newFrame: bool, ready: bool, faces: nat)
    ensures var t := Frame(s, now, newFrame, ready, faces);
      && (t.phase != s.phase <==> s.cameraOn && newFrame && s.phase == Idle && ready && faces > 0)
      && (t.phase != s.phase ==> t.phase == Countdown && t.phaseStart == now)
  {
  }

  /** Outside the idle phase, or without a landmarker, the detection result is
      never consulted: the frame does the same whatever it reports. */
  lemma DetectionNotConsulted(s: Session, now: int, newFrame: bool, ready: bool, f1: nat, f2: nat)
    requires s.phase != Idle || !ready
    ensures Frame(s, now, newFrame, ready, f1) == Frame(s, now, newFrame, ready, f2)
  {
  }

  /** Without a ready camera, or when the video has not advanced to a new
      frame, the frame loop is a no-op: no detection, no progress, no change
      to the buffer. */
  lemma NoCameraNoFrame(s: Session, now: int, newFrame: bool, ready: bool, faces: nat, buf: seq<Byte>)
    requires (!s.cameraOn || !newFrame) && IsPixelBuffer(buf)
    ensures Frame(s, now, newFrame, ready, faces) == s
    ensures FrameBuffer(s, now, newFrame, buf) == buf
  {
  }

  /** The thermal-phase test guarding the blend is implied by positive
      progress, and the progress a frame publishes is within [0,1] once the
      phase clock has started. */
  lemma BlendGuard(s: Session, now: int)
    ensures BlendApplies(s, now) <==> ThermalProgress(s.phase, now - s.phaseStart) > 0.0
    ensures now >= s.phaseStart && s.cameraOn ==>
      0.0 <= Frame(s, now, true, false, 0).thermalProgress <= 1.0
  {
  }

  /** A frame changes the buffer only in a thermal phase with positive
      progress; every byte it changes is a colour channel, never alpha. */
  lemma FrameBufferChanges(s: Session, now: int, newFrame: bool, buf: seq<Byte>, k: int)
    requires IsPixelBuffer(buf) && 0 <= k < |buf|
    ensures |FrameBuffer(s, now, newFrame, buf)| == |buf|
    ensures FrameBuffer(s, now, newFrame, buf)[k] != buf[k] ==>
      IsThermalPhase(s.phase) && ThermalProgress(s.phase, now - s.phaseStart) > 0.0 && k % 4 != 3
  {
    if s.cameraOn && newFrame && BlendApplies(s, now) && k % 4 == 3 {
      BlendKeepsAlpha(buf, ThermalProgress(s.phase, now - s.phaseStart), k);
    }
  }

  /** Entering the result screen releases the camera, so the frames that
      follow neither publish progress nor touch the buffer: the fade-out the
      progress function defines for the result phase is never applied, unless
      a camera becomes ready again first. */
  lemma ResultFramesInert(s: Session, now: int, r: real, later: int, newFrame: bool,
                          ready: bool, faces: nat, buf: seq<Byte>)
    requires s.phase == ThermalHoldAfterUp && Tick(s, now, r).phase == Result
    requires IsPixelBuffer(buf)
    ensures Frame(Tick(s, now, r), later, newFrame, ready, faces) == Tick(s, now, r)
    ensures FrameBuffer(Tick(s, now, r), later, newFrame, buf) == buf
  {
  }

  // ---------------------------------------------------------------------
  // Invariants

  lemma InitialInv(now: int)
    ensures Inv(Initial(now))
  {
  }

  /** Every event keeps the session consistent. */
  lemma StepInv(s: Session, e: Event)
    requires Inv(s) && ValidEvent(e)
    ensures Inv(Step(s, e))
  {
  }

  /** Any run of valid events keeps the session consistent. */
  lemma {:induction false} RunInv(s: Session, es: seq<Event>)
    requires Inv(s)
    requires forall i :: 0 <= i < |es| ==> ValidEvent(es[i])
    ensures Inv(Run(s, es))
    decreases |es|
  {
    if es != [] {
      StepInv(s, es[0]);
      RunInv(Step(s, es[0]), es[1..]);
    }
  }

  /** Once drawn, the outcome stays fixed until the session returns to idle,
      and so does the displayed temperature once it has been revealed. */
  lemma OutcomeFixed(s: Session, e: Event)
    requires Inv(s) && !BeforeOutcome(s.phase) && !BeforeOutcome(Step(s, e).phase)
    ensures Step(s, e).isCool == s.isCool && Step(s, e).result == s.result
    ensures s.showTemperature ==>
      Step(s, e).showTemperature && Step(s, e).targetTemperature == s.targetTemperature
  {
  }

  /** A timer callback when neither timer is due changes nothing. */
  lemma NothingDueNoChange(s: Session, now: int, r: real)
    requires !TemperatureTimerDue(s, now) && !PhaseTimerDue(s, now)
    ensures Tick(s, now, r) == s
  {
  }

  /** A full session with the clock injected: a face at t = 0, the countdown
      animation finishing at 3.5 s, and then every timer at its deadline; the
      random values are 0.5, so the outcome is cool at 85 degrees. */
  lemma ScenarioFullSession()
    ensures
      var s1 := Step(Initial(0), CameraStarted);
      var s2 := Step(s1, FrameArrived(0, true, true, 1));
      var s3 := Step(s2, TimerFired(3500, 0.5));
      var s4 := Step(s3, CountdownFinished(3500));
      var s5 := Step(s4, TimerFired(6500, 0.5));
      var s6 := Step(s5, TimerFired(9500, 0.5));
      var s7 := Step(s6, TimerFired(12500, 0.5));
      var s8 := Step(s7, TimerFired(13500, 0.5));
      var s9 := Step(s8, TimerFired(17500, 0.5));
      var s10 := Step(s9, TimerFired(22500, 0.5));
      && s2.phase == Countdown && s2.phaseStart == 0
      && s3 == s2
      && s4.phase == ScanDown && s4.phaseStart == 3500
      && s5.phase == ThermalHoldAfterDown && s5.phaseStart == 6500
      && s6.phase == ScanUp && s6.phaseStart == 9500
      && s7.phase == ThermalHoldAfterUp && s7.isCool && s7.result == Some(CoolMessage)
      && s8.phase == ThermalHoldAfterUp && s8.showTemperature && s8.targetTemperature == 85.0
      && s9.phase == Result && s9.phaseStart == 17500 && !s9.cameraOn
      && s10 == Initial(22500)
  {
    var s1 := Step(Initial(0), CameraStarted);
    assert s1 == Session(Idle, 0, None, false, 0.0, false, 0.0, true);
    var s2 := Step(s1, FrameArrived(0, true, true, 1));
    assert s2 == Session(Countdown, 0, None, false, 0.0, false, 0.0, true);
    var s3 := Step(s2, TimerFired(3500, 0.5));
    assert s3 == s2;
    var s4 := Step(s3, CountdownFinished(3500));
    assert s4 == Session(ScanDown, 3500, None, false, 0.0, false, 0.0, true);
    var s5 := Step(s4, TimerFired(6500, 0.5));
    assert s5 == Session(ThermalHoldAfterDown, 6500, None, false, 0.0, false, 0.0, true);
    var s6 := Step(s5, TimerFired(9500, 0.5));
    assert s6 == Session(ScanUp, 9500, None, false, 0.0, false, 0.0, true);
    var s7 := Step(s6, TimerFired(12500, 0.5));
    assert s7 == Session(ThermalHoldAfterUp, 12500, Some(CoolMessage), true, 0.0, false, 0.0, true);
    var s8 := Step(s7, TimerFired(13500, 0.5));
    assert s8 == Session(ThermalHoldAfterUp, 12500, Some(CoolMessage), true, 85.0, true, 0.0, true);
    var s9 := Step(s8, TimerFired(17500, 0.5));
    assert s9 == Session(Result, 17500, Some(CoolMessage), true, 85.0, true, 0.0, false);
  }
}
