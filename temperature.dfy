/** The temperature read-out: once revealed it counts up from 10 degrees to
    the target over two seconds with an ease-out-quart curve, shown rounded
    to one decimal place. */
module TemperatureDisplay {

  /** The value the read-out counts up from; its state is reset to it while
      the read-out is hidden (nothing is rendered then). */
  const StartTemperature: real := 10.0
  /** Length of the count-up animation. */
  const CountUpMs: int := 2000

  function Power(x: real, n: nat): real {
    if n == 0 then 1.0 else x * Power(x, n - 1)
  }

  /** The easing curve 1 - (1 - x)^4. */
  function EaseOutQuart(x: real): real { 1.0 - Power(1.0 - x, 4) }

  /** `Math.round(x * 10) / 10`: the nearest tenth, halves rounded up. */
  function RoundTenth(x: real): (t: real)
    ensures x - 0.05 < t <= x + 0.05
  {
    var f := (x * 10.0 + 0.5).Floor;
    assert f as real <= x * 10.0 + 0.5 < f as real + 1.0;
    f as real / 10.0
  }

  /** The point a fraction `f` of the way from the start value to `target`. */
  function Lerp(target: real, f: real): real {
    StartTemperature + (target - StartTemperature) * f
  }

  /** The unrounded value of the count-up `elapsed` ms after the reveal. */
  function EasedTemperature(target: real, elapsed: int): real {
    Lerp(target, EaseOutQuart(elapsed as real / CountUpMs as real))
  }

  /** The read-out's current value `elapsed` ms after it became visible. While
      it is hidden nothing is rendered and the value is held at the start value. */
  function DisplayedTemperature(target: real, visible: bool, elapsed: int): real {
    if !visible then StartTemperature
    else if elapsed >= CountUpMs then target
    else RoundTenth(EasedTemperature(target, elapsed))
  }

  lemma ProductMonotone(a: real, b: real, c: real, d: real)
    requires 0.0 <= a <= b && 0.0 <= c <= d
    ensures 0.0 <= a * c <= b * d
  {
    assert a * c <= b * c;
    assert b * c <= b * d;
  }

  /** Raising to a power never reverses the order of two non-negative reals. */
  lemma {:induction false} PowerMonotone(a: real, b: real, n: nat)
    requires 0.0 <= a <= b
    ensures 0.0 <= Power(a, n) <= Power(b, n)
  {
    if n > 0 {
      PowerMonotone(a, b, n - 1);
      ProductMonotone(a, b, Power(a, n - 1), Power(b, n - 1));
    }
  }

  /** Every power of 1 is 1. */
  lemma {:induction false} PowerOfOne(n: nat)
    ensures Power(1.0, n) == 1.0
  {
    if n > 0 {
      PowerOfOne(n - 1);
    }
  }

  /** The easing curve starts at 0 and ends at 1. */
  lemma EaseEndpoints()
    ensures EaseOutQuart(0.0) == 0.0 && EaseOutQuart(1.0) == 1.0
  {
    PowerOfOne(4);
    assert Power(0.0, 4) == 0.0 * Power(0.0, 3);
  }

  /** On [0,1] the easing curve stays in [0,1] and never decreases. */
  lemma EaseMonotone(x: real, y: real)
    requires 0.0 <= x <= y <= 1.0
    ensures 0.0 <= EaseOutQuart(x) <= EaseOutQuart(y) <= 1.0
  {
    PowerMonotone(1.0 - y, 1.0 - x, 4);
    PowerMonotone(1.0 - x, 1.0, 4);
    PowerOfOne(4);
  }

  /** Floor never reverses the order of two reals. */
  lemma FloorMonotone(a: real, b: real)
    requires a <= b
    ensures a.Floor <= b.Floor
  {
    assert a.Floor as real <= a;
    assert b < b.Floor as real + 1.0;
  }

  /** Rounding to a tenth moves a value by at most half a tenth and never
      reverses the order of two values. */
  lemma RoundTenthShape(x: real, y: real)
    requires x <= y
    ensures x - 0.05 < RoundTenth(x) <= x + 0.05
    ensures RoundTenth(x) <= RoundTenth(y)
  {
    var f := (x * 10.0 + 0.5).Floor;
    assert f as real <= x * 10.0 + 0.5 < f as real + 1.0;
    FloorMonotone(x * 10.0 + 0.5, y * 10.0 + 0.5);
  }

  /** The count-up starts at 10 and arrives at the target at the end of the animation. */
  lemma CountUpEnds(target: real)
    ensures EasedTemperature(target, 0) == StartTemperature
    ensures EasedTemperature(target, CountUpMs) == target
  {
    EaseEndpoints();
    assert (0 as real) / (CountUpMs as real) == 0.0;
    assert (CountUpMs as real) / (CountUpMs as real) == 1.0;
  }

  /** Over the count-up, for a target of at least 10 degrees, the unrounded
      value stays between 10 and the target and never decreases. */
  lemma CountUpShape(target: real, e1: int, e2: int)
    requires target >= StartTemperature
    requires 0 <= e1 <= e2 <= CountUpMs
    ensures StartTemperature <= EasedTemperature(target, e1) <= EasedTemperature(target, e2) <= target
  {
    var x, y := e1 as real / CountUpMs as real, e2 as real / CountUpMs as real;
    var a, b := EaseOutQuart(x), EaseOutQuart(y);
    assert 0.0 <= a <= b <= 1.0 by {
      EaseMonotone(x, y);
    }
    Between(target, a, b);
  }

  /** Moving from 10 towards `target` by fractions a <= b in [0,1]. */
  lemma Between(target: real, a: real, b: real)
    requires target >= StartTemperature && 0.0 <= a <= b <= 1.0
    ensures StartTemperature <= Lerp(target, a) <= Lerp(target, b) <= target
  {
    var d := target - StartTemperature;
    ProductMonotone(d, d, a, b);
    ProductMonotone(d, d, b, 1.0);
    assert d * 1.0 == d;
    assert Lerp(target, a) == StartTemperature + d * a;
    assert Lerp(target, b) == StartTemperature + d * b;
  }

  /** While it counts up the read-out shows 10 at the reveal, never goes down,
      and stays within half a tenth of the target; at any time from the end of
      the animation on it shows the target exactly. */
  lemma ReadOutShape(target: real, e1: int, e2: int, e3: int)
    requires target >= StartTemperature
    requires 0 <= e1 <= e2 < CountUpMs
    requires e3 >= CountUpMs
    ensures DisplayedTemperature(target, true, 0) == StartTemperature
    ensures StartTemperature <= DisplayedTemperature(target, true, e1) <= DisplayedTemperature(target, true, e2)
    ensures DisplayedTemperature(target, true, e2) <= target + 0.05
    ensures DisplayedTemperature(target, true, e3) == target
  {
    CountUpEnds(target);
    CountUpShape(target, e1, e2);
    assert RoundTenth(StartTemperature) == StartTemperature;
    RoundTenthShape(StartTemperature, EasedTemperature(target, e1));
    RoundTenthShape(EasedTemperature(target, e1), EasedTemperature(target, e2));
  }
}
