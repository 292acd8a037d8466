# Thermal scanner: a verified model

This project models the core of a browser "thermal scan" kiosk. The scanner
watches a camera feed and waits in the idle phase until a face is detected.
It then runs a fixed sequence of phases: a countdown, a downward scan sweep,
a thermal hold, an upward sweep, a second thermal hold, and a result screen.
After the result screen it starts over. During the thermal phases each video
frame is pulled towards a false-colour palette of its own luminance. At the
second hold a biased coin decides whether the visitor is "cool" (probability
0.9) and draws a displayed temperature.

The model covers `src/components/ThermalScanner.tsx` in six modules, plus a shared `Option` type:

- `palette.dfy` (module `Palette`): `getThermalColor`, a five-band
  piecewise-linear map from luminance to RGB. It is written over exact
  `real` arithmetic, with `.Floor` for `Math.floor`.
- `blend.dfy` (module `Blend`): the pixel loop of the frame processor.
  `ApplyThermal` rewrites an `array` of clamped bytes in place, four bytes at
  a time. It is proved equal to the specification function `Blended`, and the
  properties of the blend are lemmas about `Blended`.
- `phases.dfy` (module `Phases`): the phases, their timer delays and the
  thermal progress derived from the time spent in a phase.
- `temperature.dfy` (module `TemperatureDisplay`): the ease-out count-up of
  the temperature read-out.
- `controller.dfy` (module `Controller`): the phase controller as pure
  transition functions over a `Session` value. It has one function per
  callback (timer, frame, countdown completion, camera ready or stopped), a
  consistency invariant `Inv`, and the lemmas about them.
- `scanner.dfy` (module `Scanner`): the component itself, class
  `ScanController`. Its fields are the ones the callbacks update in place,
  and it has one method per callback. Each method is proved to produce the
  state the matching `Controller` function prescribes and to keep `Inv`.
  `ProcessFrame` composes the progress computation, the blend of the canvas
  pixels and the detection gate.
- `wrappers.dfy`: an `Option` type for the nullable result message.

Modelling choices:

- `Math.random()` becomes a parameter `r` with `0 <= r < 1`. The clock
  (`Date.now()`) becomes a parameter `now`.
- Timer callbacks become `Tick(now, r)`. Each tick delivers one callback:
  the earliest pending timer, if it is due. So in the second hold the 1 s
  temperature timer always fires before the 5 s phase timer. The pending
  timers are derived from `(phase, phaseStart, showTemperature)`. That is why
  a cleared timer of an earlier phase can never fire.
- The phase clock restarts at the `now` of the callback that changed the
  phase. In the source this is the `Date.now()` read right after that change.
- `FaceLandmarker` becomes two inputs. `landmarkerReady` says the model
  loaded. `faceCount` is the length of the landmark list.
- Camera acquisition becomes a flag `cameraOn`. `stopCamera` clears it.
  `startCamera` is asynchronous, so the restart does not set it. The separate
  event `CameraReady` (the video's loaded-metadata handler) sets it. A camera
  that fails to open never sends that event. The frame loop does nothing
  while the flag is clear.
- The canvas pixel array is a `Uint8ClampedArray`, so elements are `Byte`s
  and every store goes through `ClampByte`. Its length is always a multiple
  of 4, which `IsPixelBuffer` states. When `0 < p <= 1` the clamp never
  engages (`BlendIsExactFloor`).

Three behaviours of the code are worth stating plainly:

- The top band of the palette (normalised luminance 0.75 and above)
  interpolates the green channel from 0 to 165, with red 255 and blue 0, so
  the colour runs from red (255,0,0) to orange (255,165,0)
  (src/components/ThermalScanner.tsx:29-32).
- The countdown ends after its 4000 ms fallback at the latest
  (src/components/ThermalScanner.tsx:56-61), and the hold after the upward
  sweep lasts 5000 ms (src/components/ThermalScanner.tsx:227-232).
- The progress function defines a fade of the overlay over the first second
  of the result phase (src/components/ThermalScanner.tsx:301-302). It is
  never applied: the camera is stopped on entry to the result phase
  (line 231) and the frame loop returns early without a ready camera
  (line 248). `Controller.ResultFramesInert` proves this.

## Model

| member | source | states |
|---|---|---|
| `Palette.Normalize` | src/components/ThermalScanner.tsx:12 | the normalised luminance lies in [0,1], equals intensity/255 on [0,255], and is 0 below and 1 above that range |
| `Palette.ThermalColor` | src/components/ThermalScanner.tsx:11-34 | for every real intensity, including values below 0 or above 255, every channel of the palette colour lies in [0,255] |
| `Palette.ClampsInput` | src/components/ThermalScanner.tsx:12 | intensities below 0 get the colour of 0 and intensities above 255 get the colour of 255 |
| `Palette.Endpoints` | src/components/ThermalScanner.tsx:13-33 | the colour of 0 is (0,0,255), of 255*0.75 is (255,0,0), of 255 is (255,165,0) |
| `Palette.BandChannels` | src/components/ThermalScanner.tsx:13-33 | below 0.30: red 0, blue 255; [0.30,0.35): red 0, green 255; [0.35,0.50): green 255, blue 0; [0.50,0.75): red 255, blue 0; from 0.75: red 255, blue 0, green in [0,165]; the interpolated channel stays in its range |
| `Palette.ContinuousAtEdges` | src/components/ThermalScanner.tsx:13-33 | a luminance less than 0.05 luminance units (0.05/255 on the normalised scale) below the luminance of a band edge gets a colour within 1 per channel of the colour at the edge |
| `Palette.NoSeamAcrossEdges` | src/components/ThermalScanner.tsx:13-33 | any two luminances, each less than 0.05 luminance units away, one below and one above the luminance of a band edge get colours within 1 of each other in every channel: no band boundary shows a seam |
| `Blend.ClampByte` | src/components/ThermalScanner.tsx:315-317 | a store into the clamped pixel array keeps values in [0,255], writes 0 for negatives and 255 above 255 |
| `Blend.Luminance` | src/components/ThermalScanner.tsx:312 | the weighted luminance of three bytes lies in [0,255] |
| `Blend.BlendChannel` | src/components/ThermalScanner.tsx:315-317 | one stored colour channel keeps the original at progress 0 and is the palette value at progress 1; `Blend.BlendChannelExact` gives its value in between |
| `Blend.Blended` | src/components/ThermalScanner.tsx:311-318 | the buffer after the blend loop has the length of the original and whole pixels; `BlendKeepsAlpha`, `BlendIsExactFloor`, `FullProgressIsPalette` and `ZeroProgressIsIdentity` state its contents, and `ApplyThermal` is proved to compute it |
| `Blend.BlendChannelExact` | src/components/ThermalScanner.tsx:315 | for 0 < p <= 1 and a palette value in [0,255], the interpolation orig*(1-p)+thermal*p lies in [0,255] and the stored channel is exactly its floor |
| `Blend.BlendIsExactFloor` | src/components/ThermalScanner.tsx:315-317 | for 0 < p <= 1 every colour byte of the blended buffer is floor(orig*(1-p) + thermal*p) of that pixel, never clamped |
| `Blend.BlendKeepsAlpha` | src/components/ThermalScanner.tsx:311-318 | the blend keeps the buffer length and every alpha byte (index 3 mod 4) |
| `Blend.FullProgressIsPalette` | src/components/ThermalScanner.tsx:312-317 | at p = 1 every colour byte equals the palette colour of that pixel's luminance |
| `Blend.ZeroProgressIsIdentity` | src/components/ThermalScanner.tsx:315-317 | at p = 0 the blended buffer equals the original |
| `Blend.ApplyThermal` | src/components/ThermalScanner.tsx:311-318 | the in-place loop leaves exactly the blended buffer of the original contents |
| `Phases.PhaseDuration` | src/components/ThermalScanner.tsx:56-61 | every phase timer is set to at least 3000 ms (countdown fallback 4000, sweeps and the first hold 3000, second hold 5000, result dwell 5000, lines 198-232 and 342-350), though the countdown may end earlier on its completion event; both holds last long enough for the 3000 ms overlay ramp, and the second hold outlasts the 1000 ms reveal delay |
| `Phases.ThermalProgress` | src/components/ThermalScanner.tsx:295-303 | for elapsed >= 0 the progress lies in [0,1], and it is positive only in a thermal phase |
| `Phases.HoldRamp` | src/components/ThermalScanner.tsx:297-300 | in both hold phases progress is non-decreasing in elapsed, 0 at the start, positive after it, and 1 exactly from 3000 ms on (below 1 before) |
| `Phases.ResultFade` | src/components/ThermalScanner.tsx:301-302 | on the result screen progress is non-increasing in elapsed, 1 at the start, and positive exactly before 1000 ms |
| `Phases.NoOverlayOutsideThermal` | src/components/ThermalScanner.tsx:295 | progress is 0 in every phase that is not a thermal phase |
| `TemperatureDisplay.EaseOutQuart` | src/components/ThermalScanner.tsx:123-124 | the easing curve 1-(1-x)^4 of the count-up; `EaseEndpoints` and `EaseMonotone` state its shape |
| `TemperatureDisplay.DisplayedTemperature` | src/components/ThermalScanner.tsx:105-130 | the read-out's current value; `ReadOutShape` states what it shows over time |
| `TemperatureDisplay.RoundTenth` | src/components/ThermalScanner.tsx:130 | `Math.round(x*10)/10` is within half a tenth of x: x - 0.05 < result <= x + 0.05 |
| `TemperatureDisplay.PowerMonotone` | src/components/ThermalScanner.tsx:124 | powers preserve the order of non-negative reals, which is what makes the easing curve monotone |
| `TemperatureDisplay.EaseEndpoints` | src/components/ThermalScanner.tsx:124 | the curve 1-(1-x)^4 is 0 at 0 and 1 at 1 |
| `TemperatureDisplay.EaseMonotone` | src/components/ThermalScanner.tsx:124 | on [0,1] the curve stays in [0,1] and never decreases |
| `TemperatureDisplay.RoundTenthShape` | src/components/ThermalScanner.tsx:130 | rounding to a tenth moves a value by at most 0.05 and preserves order |
| `TemperatureDisplay.CountUpEnds` | src/components/ThermalScanner.tsx:113-128 | the eased value is exactly 10 at the start of the count-up and exactly the target after 2000 ms |
| `TemperatureDisplay.CountUpShape` | src/components/ThermalScanner.tsx:113-128 | for a target of at least 10, the eased value stays between 10 and the target and never decreases over the 2000 ms |
| `TemperatureDisplay.ReadOutShape` | src/components/ThermalScanner.tsx:105-130 | the read-out shows 10 at the reveal, never decreases while counting up, stays at most 0.05 above the target, and shows the target exactly at every elapsed time of 2000 ms or more |
| `Controller.Tick` | src/components/ThermalScanner.tsx:196-240 | a timer callback (phase timers at lines 198-232, restart at 342-350) either keeps the phase and its clock or moves to the next phase with the clock restarted at `now`; it never turns the camera on, only the timer that ends the second hold (lines 229-232) turns it off, and it changes the published progress only when it returns to idle |
| `Controller.DecideOutcome` | src/components/ThermalScanner.tsx:213-216 | the outcome is cool exactly when the random value is below 0.9, the message matches the outcome, and no other field changes |
| `Controller.RevealTemperature` | src/components/ThermalScanner.tsx:219-225 | for a random value in [0,1) the revealed temperature lies in [80,90) for a cool and [90,100) for a hot outcome; it becomes visible, and no other field changes |
| `Controller.Restart` | src/components/ThermalScanner.tsx:342-350 | the restart yields the mount state again (apart from the camera flag, which the asynchronous `startCamera` sets later) and satisfies the invariant |
| `Controller.CountdownComplete` | src/components/ThermalScanner.tsx:419-421 | the completion event changes the phase exactly when it is the countdown, into the downward sweep with a fresh clock, and changes no other field |
| `Controller.Frame` | src/components/ThermalScanner.tsx:245-327 | a frame keeps the phase and its clock, except that in idle it may start the countdown at `now`; it changes no field but the phase, its clock and the published progress, which lies in [0,1] once the phase clock has started; `NoCameraNoFrame` states that a repeated frame or a missing camera changes nothing |
| `Controller.TimerAdvances` | src/components/ThermalScanner.tsx:196-240 | a timer callback changes the phase exactly when the phase timer is due (4000, 3000, 3000, 3000, 5000, 5000 ms); it moves to the next phase and restarts the phase clock, otherwise keeps the clock; idle has no timer; only the timer that ends the second hold changes the camera flag |
| `Controller.TemperatureReveal` | src/components/ThermalScanner.tsx:219-225 | the temperature is revealed exactly when its 1000 ms timer is due; the phase is kept and the value lies in [80,90) if cool and [90,100) otherwise |
| `Controller.OutcomeDrawn` | src/components/ThermalScanner.tsx:212-216 | entering the second hold sets isCool to (r < 0.9) with the matching message, temperature not yet shown |
| `Controller.ResultStopsCamera` | src/components/ThermalScanner.tsx:229-232 | the result phase is entered only from the second hold after 5000 ms, and the camera is off afterwards |
| `Controller.StopCameraIdempotent` | src/components/ThermalScanner.tsx:408-417 | stopping the camera twice is the same as once, and it changes nothing but the camera flag |
| `Controller.RestartClears` | src/components/ThermalScanner.tsx:342-350 | after the 5000 ms dwell the restart clears the message, isCool, the temperature, its visibility and the progress, and returns to idle with a fresh clock |
| `Controller.CountdownCompletion` | src/components/ThermalScanner.tsx:419-421 | the completion event changes the phase exactly when it is the countdown, into the downward sweep with a fresh clock |
| `Controller.DetectionGate` | src/components/ThermalScanner.tsx:322-327 | a frame starts the countdown exactly when the camera is ready, the frame is new, the phase is idle, a landmarker exists and it reports a face |
| `Controller.DetectionNotConsulted` | src/components/ThermalScanner.tsx:322-323 | outside idle, or without a landmarker, the frame's effect does not depend on the detection result |
| `Controller.NoCameraNoFrame` | src/components/ThermalScanner.tsx:248-257 | without a ready camera, or when the video time has not advanced (a repeated frame), a frame changes neither the state nor the buffer |
| `Controller.BlendGuard` | src/components/ThermalScanner.tsx:305-308 | the blend runs exactly when progress is positive (the thermal-phase test is implied), and the published progress lies in [0,1] once the phase clock has started |
| `Controller.FrameBufferChanges` | src/components/ThermalScanner.tsx:307-320 | a frame changes a byte only in a thermal phase with positive progress, and never an alpha byte |
| `Controller.ResultFramesInert` | src/components/ThermalScanner.tsx:229-232 | right after the result phase is entered, frames change neither state nor buffer, so the result fade-out is never applied |
| `Controller.InitialInv` | src/components/ThermalScanner.tsx:184-193 | the mount state is consistent |
| `Controller.StepInv` | src/components/ThermalScanner.tsx:196-240 | every callback keeps the invariant: no outcome before the second hold; from then on the message matches isCool and a shown temperature lies in its band; the result phase always has the temperature shown |
| `Controller.RunInv` | src/components/ThermalScanner.tsx:196-353 | any sequence of callbacks keeps the invariant |
| `Controller.OutcomeFixed` | src/components/ThermalScanner.tsx:212-232 | once drawn, isCool and the message do not change until the session returns to idle, and a revealed temperature stays revealed with the same value |
| `Controller.NothingDueNoChange` | src/components/ThermalScanner.tsx:196-240 | a timer callback when neither the phase timer nor the temperature timer is due leaves the session unchanged |
| `Controller.ScenarioFullSession` | src/components/ThermalScanner.tsx:196-353 | a face at 0 ms, countdown completion at 3500 ms and timers at their deadlines give the phases in order, a cool outcome at 85 degrees for r = 0.5, the camera off in the result phase, and the mount state again at 22500 ms |
| `Scanner.ScanController.constructor` | src/components/ThermalScanner.tsx:184-193 | the component mounts idle, with no outcome and the camera not yet ready |
| `Scanner.ScanController.Tick` | src/components/ThermalScanner.tsx:196-240 | the fields after a timer callback are exactly `Controller.Tick` of the fields before, and the invariant holds |
| `Scanner.ScanController.ProcessFrame` | src/components/ThermalScanner.tsx:292-327 | the fields after one frame are `Controller.Frame` of the fields before, and the pixels are the original ones or their blend exactly as `Controller.FrameBuffer` says |
| `Scanner.ScanController.CountdownComplete` | src/components/ThermalScanner.tsx:419-421 | the fields after the completion event are `Controller.CountdownComplete` of the fields before |
| `Scanner.ScanController.StopCamera` | src/components/ThermalScanner.tsx:408-417 | only the camera flag is cleared |
| `Scanner.ScanController.CameraReady` | src/components/ThermalScanner.tsx:397-400 | only the camera flag is set |

## Left out

- Frame compositing (canvas sizing, height-fit, centring, mirroring) at lines 260-290. These are browser graphics calls. The model starts from the composited pixel buffer.
- Camera acquisition (`getUserMedia`, track stopping, `play()`): browser I/O. Only the `cameraOn` flag is modelled. A failed acquisition is a missing `CameraReady` event, and the permission alert is not modelled.
- FaceLandmarker loading and inference (lines 356-378, 323): a foreign library. It is reduced to `landmarkerReady` and `faceCount`. The load-failure alert is not modelled.
- `requestAnimationFrame` and `setTimeout` scheduling, and the `postMessage` listener: event-loop plumbing. They are replaced by explicit `Tick`, `ProcessFrame` and `CountdownComplete` calls.
- The video-timestamp check that skips repeated frames (line 254) is the `newFrame` input. Its bookkeeping (`lastVideoTime`) is not modelled.
- The countdown's `isCompleted` flag and the re-arming of its 4000 ms fallback when its effect re-runs are not modelled. The fallback counts from the start of the countdown.
- Unmount teardown: it stops the camera (modelled by `StopCamera`) and cancels all timers. Nothing can happen after unmount, so no state is modelled for it.
- Rendering: `ResultScreen`, `StatusText`, `ScanningLine`, the countdown iframe, the read-out markup and its `toFixed(1)` formatting. These are presentation only.
- `TemperatureDisplay.DisplayedTemperature` is not tied to the session state. The time of the reveal is kept by the read-out component itself (`startTimeRef`), not by the scanner.
- IEEE-754 rounding: all arithmetic is exact `real`. Near band edges and integer boundaries a floating-point floor can differ by one from the exact one, and the half-open temperature bands [80,90) and [90,100) hold only in exact arithmetic: in doubles `r*10+80` can round to exactly 90 for r just below 1.
