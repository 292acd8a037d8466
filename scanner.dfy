/** The scanner component: the fields its callbacks update in place, and one
    method per callback. Each method is proved to leave exactly the state the
    controller's transition function prescribes, and to keep its invariant. */
module Scanner {
  import opened Wrappers
  import opened Phases
  import opened Blend
  import Controller

  class ScanController {
    var phase: Phase
    var phaseStart: int
    var result: Option<string>
    var isCool: bool
    var targetTemperature: real
    var showTemperature: bool
    var thermalProgress: real
    var cameraOn: bool

    /** The fields as one session value. */
    function State(): Controller.Session
      reads this
    {
      Controller.Session(phase, phaseStart, result, isCool, targetTemperature,
                         showTemperature, thermalProgress, cameraOn)
    }

    ghost predicate Valid()
      reads this
    {
      Controller.Inv(State())
    }

    /** Mounting: idle, clock started, camera not ready yet. */
    constructor (now: int)
      ensures Valid() && State() == Controller.Initial(now)
    {
      phase := Idle;
      phaseStart := now;
      result := None;
      isCool := false;
      targetTemperature := 0.0;
      showTemperature := false;
      thermalProgress := 0.0;
      cameraOn := false;
    }

    /** Mirrors `stopCamera`: the stream is released and the camera is no longer ready. */
    method StopCamera()
      requires Valid()
      modifies this
      ensures Valid() && State() == Controller.StopCamera(old(State()))
    {
      cameraOn := false;
    }

    /** The video element reported its metadata: frames can be processed. */
    method CameraReady()
      requires Valid()
      modifies this
      ensures Valid() && State() == Controller.CameraReady(old(State()))
    {
      cameraOn := true;
    }

    /** Mirrors `handleCountdownComplete`, reachable only while the countdown is mounted. */
    method CountdownComplete(now: int)
      requires Valid()
      modifies this
      ensures Valid() && State() == Controller.CountdownComplete(old(State()), now)
    {
      if phase == Countdown {
        phase := ScanDown;
        phaseStart := now;
      }
    }

    /** One timer callback at `now`; `r` is the value `Math.random()` returns to it. */
    method Tick(now: int, r: real)
      requires Valid() && 0.0 <= r < 1.0
      modifies this
      ensures Valid() && State() == Controller.Tick(old(State()), now, r)
    {
      var elapsed := now - phaseStart;
      if phase == ThermalHoldAfterUp && !showTemperature {
        if elapsed >= TemperatureRevealMs {
          targetTemperature := r * Controller.TemperatureSpread
            + (if isCool then Controller.CoolBase else Controller.HotBase);
          showTemperature := true;
        }
      } else if phase != Idle && elapsed >= PhaseDuration(phase) {
        match phase {
          case Countdown =>
            phase := ScanDown;
          case ScanDown =>
            phase := ThermalHoldAfterDown;
          case ThermalHoldAfterDown =>
            phase := ScanUp;
          case ScanUp =>
            phase := ThermalHoldAfterUp;
            var cool := r < Controller.CoolProbability;
            isCool := cool;
            result := Some(Controller.Verdict(cool));
          case ThermalHoldAfterUp =>
            phase := Result;
            cameraOn := false;
          case Result =>
            result := None;
            isCool := false;
            targetTemperature := 0.0;
            showTemperature := false;
            phase := Idle;
            thermalProgress := 0.0;
        }
        phaseStart := now;
      }
      Controller.StepInv(old(State()), Controller.TimerFired(now, r));
    }

    /** One iteration of the frame loop on the canvas pixels `data`: publish the
        progress, blend the pixels when it is positive in a thermal phase, and
        run the detection gate in the idle phase. */
    method ProcessFrame(data: array<Byte>, now: int, newFrame: bool, landmarkerReady: bool, faceCount: nat)
      requires Valid() && IsPixelBuffer(data[..])
      modifies this, data
      ensures Valid() && State() == Controller.Frame(old(State()), now, newFrame, landmarkerReady, faceCount)
      ensures data[..] == Controller.FrameBuffer(old(State()), now, newFrame, old(data[..]))
    {
      if cameraOn && newFrame {
        var progress := ThermalProgress(phase, now - phaseStart);
        thermalProgress := progress;
        if IsThermalPhase(phase) && progress > 0.0 {
          ApplyThermal(data, progress);
        }
        if phase == Idle && landmarkerReady && faceCount > 0 {
          phase := Countdown;
          phaseStart := now;
        }
      }
      Controller.StepInv(old(State()), Controller.FrameArrived(now, newFrame, landmarkerReady, faceCount));
    }
  }
}
