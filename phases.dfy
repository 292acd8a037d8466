/** The phases of one scan session, the fixed timer each of them runs, and
    the thermal progress the frame loop derives from the time spent in the
    current phase. */
module Phases {

  datatype Phase =
    | Idle
    | Countdown
    | ScanDown
    | ThermalHoldAfterDown
    | ScanUp
    | ThermalHoldAfterUp
    | Result

  /** The fallback that ends the countdown if its animation never reports completion. */
  const CountdownFallbackMs: int := 4000
  /** Each scan sweep and the hold after the downward sweep. */
  const SweepMs: int := 3000
  /** The hold after the upward sweep: 1 s delay, 2 s count-up, 2 s display. */
  const HoldAfterUpMs: int := 5000
  /** Delay before the temperature is revealed in the hold after the upward sweep. */
  const TemperatureRevealMs: int := 1000
  /** Dwell on the result screen before the session restarts. */
  const ResultDwellMs: int := 5000
  /** Time for the thermal overlay to ramp up in a hold phase. */
  const RampUpMs: int := 3000
  /** Time for the thermal overlay to fade out on the result screen. */
  const FadeOutMs: int := 1000

  /** The phase that follows `p` in the cycle. */
  function NextPhase(p: Phase): Phase {
    match p
    case Idle => Countdown
    case Countdown => ScanDown
    case ScanDown => ThermalHoldAfterDown
    case ThermalHoldAfterDown => ScanUp
    case ScanUp => ThermalHoldAfterUp
    case ThermalHoldAfterUp => Result
    case Result => Idle
  }

  /** Whether a timer ends `p`; only the idle phase waits for an event instead. */
  predicate IsTimed(p: Phase) {
    p != Idle
  }

  /** The delay of the timer that moves `p` on to the next phase. Every phase
      timer is set to at least one sweep (the countdown may still end earlier,
      on its completion event), a hold is long enough for the overlay to ramp
      up fully, and the second hold outlasts the temperature reveal. */
  function PhaseDuration(p: Phase): (d: int)
    requires IsTimed(p)
    ensures d >= SweepMs
    ensures (p == ThermalHoldAfterDown || p == ThermalHoldAfterUp) ==> d >= RampUpMs
    ensures p == ThermalHoldAfterUp ==> d > TemperatureRevealMs
  {
    match p
    case Countdown => CountdownFallbackMs
    case ScanDown => SweepMs
    case ThermalHoldAfterDown => SweepMs
    case ScanUp => SweepMs
    case ThermalHoldAfterUp => HoldAfterUpMs
    case Result => ResultDwellMs
  }

  /** Whether the frame loop may apply the thermal overlay in `p`. */
  predicate IsThermalPhase(p: Phase) {
    p == ThermalHoldAfterDown || p == ThermalHoldAfterUp || p == Result
  }

  function Min(a: real, b: real): real { if a < b then a else b }
  function Max(a: real, b: real): real { if a < b then b else a }

  /** Strength of the thermal overlay `elapsed` ms after the phase began:
      a ramp up in the hold phases, a fade out on the result screen. */
  function ThermalProgress(p: Phase, elapsed: int): (progress: real)
    ensures elapsed >= 0 ==> 0.0 <= progress <= 1.0
    ensures progress > 0.0 ==> IsThermalPhase(p)
  {
    if p == ThermalHoldAfterDown || p == ThermalHoldAfterUp then
      Min(1.0, elapsed as real / RampUpMs as real)
    else if p == Result then
      Max(0.0, 1.0 - elapsed as real / FadeOutMs as real)
    else
      0.0
  }

  /** In a hold phase the overlay starts at 0, is positive as soon as time has
      passed, reaches full strength at the end of the ramp and never weakens. */
  lemma HoldRamp(p: Phase, e1: int, e2: int)
    requires p == ThermalHoldAfterDown || p == ThermalHoldAfterUp
    requires e1 <= e2
    ensures ThermalProgress(p, e1) <= ThermalProgress(p, e2)
    ensures ThermalProgress(p, 0) == 0.0
    ensures e1 > 0 ==> ThermalProgress(p, e1) > 0.0
    ensures ThermalProgress(p, e1) == 1.0 <==> e1 >= RampUpMs
  {
  }

  /** On the result screen the overlay starts at full strength, never grows and
      is gone once the fade is over. */
  lemma ResultFade(e1: int, e2: int)
    requires e1 <= e2
    ensures ThermalProgress(Result, e2) <= ThermalProgress(Result, e1)
    ensures ThermalProgress(Result, 0) == 1.0
    ensures ThermalProgress(Result, e1) > 0.0 <==> e1 < FadeOutMs
  {
  }

  /** The overlay is absent in every phase that is not a thermal phase. */
  lemma NoOverlayOutsideThermal(p: Phase, elapsed: int)
    requires !IsThermalPhase(p)
    ensures ThermalProgress(p, elapsed) == 0.0
  {
  }
}
