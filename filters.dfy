/**
 * The filter parameter set of the photo editor and the pure update rules that the
 * toolbar buttons pass to the state setters (`prev => Math.min(prev + 10, 200)` and
 * the like), together with reset-one-by-name and reset-all.
 */
module Filters {
  import opened Wrappers

  /** The seven numeric parameters, in the order the filter expression lists them. */
  datatype Params = Params(
    brightness: int,
    contrast: int,
    blur: int,
    invert: int,
    hueRotate: int,
    saturate: int,
    opacity: int)

  /** Names one of the seven parameters. */
  datatype Param = Brightness | Contrast | Blur | Invert | HueRotate | Saturate | Opacity

  /** A toolbar button either raises or lowers its parameter. */
  datatype Direction = Up | Down

  /** The values the component's state starts with. */
  const Initial: Params := Params(100, 100, 0, 0, 0, 100, 100)

  /** The neutral value a reset restores: 100 for the percentage scales, 0 for the rest. */
  function Neutral(q: Param): int {
    match q
    case Brightness | Contrast | Saturate | Opacity => 100
    case Blur | Invert | HueRotate => 0
  }

  function ValueOf(p: Params, q: Param): int {
    match q
    case Brightness => p.brightness
    case Contrast => p.contrast
    case Blur => p.blur
    case Invert => p.invert
    case HueRotate => p.hueRotate
    case Saturate => p.saturate
    case Opacity => p.opacity
  }

  /** Replaces one parameter; the other six keep their values. */
  function WithValue(p: Params, q: Param, v: int): (r: Params)
    ensures ValueOf(r, q) == v
    ensures forall q' :: q' != q ==> ValueOf(r, q') == ValueOf(p, q')
  {
    match q
    case Brightness => p.(brightness := v)
    case Contrast => p.(contrast := v)
    case Blur => p.(blur := v)
    case Invert => p.(invert := v)
    case HueRotate => p.(hueRotate := v)
    case Saturate => p.(saturate := v)
    case Opacity => p.(opacity := v)
  }

  // ---------------------------------------------------------------------------
  // The numeric policy: range and step of every parameter.
  // ---------------------------------------------------------------------------

  /** Largest value of each parameter (hue rotation wraps before 360). */
  function Hi(q: Param): int {
    match q
    case Brightness | Contrast | Saturate => 200
    case Blur => 10
    case Invert | Opacity => 100
    case HueRotate => 359
  }

  /** How far one press of a button moves its parameter. */
  function StepSize(q: Param): nat {
    match q
    case Blur => 1
    case _ => 10
  }

  predicate InRange(q: Param, v: int) {
    0 <= v <= Hi(q)
  }

  /** Every parameter lies in its range. */
  predicate AllInRange(p: Params) {
    forall q :: InRange(q, ValueOf(p, q))
  }

  /** Only invert lacks toolbar buttons. */
  predicate HasButtons(q: Param) {
    q != Invert
  }

  // ---------------------------------------------------------------------------
  // The updater functions of the toolbar buttons.
  // ---------------------------------------------------------------------------

  function Min(a: int, b: int): int { if a <= b then a else b }
  function Max(a: int, b: int): int { if a >= b then a else b }

  /**
   * JavaScript's `x % 360` on integers: the remainder truncates toward zero, so it takes
   * the sign of the dividend (Dafny's own `%` never returns a negative value).
   */
  function JsRem360(a: int): (r: int)
    ensures a >= 0 ==> 0 <= r < 360
    ensures a < 0 ==> -360 < r <= 0
    ensures -360 < a < 360 ==> r == a
    ensures (a - r) % 360 == 0
  {
    if a >= 0 then a % 360 else -((-a) % 360)
  }

  /**
   * The value a button press writes, given the previous value: the percentage and
   * blur controls add or subtract their step and clamp, hue rotation wraps modulo 360.
   */
  function Step(q: Param, d: Direction, v: int): (r: int)
    requires HasButtons(q)
    ensures InRange(q, v) ==> InRange(q, r)
  {
    match q
    case Brightness | Contrast | Saturate =>
      if d == Up then Min(v + 10, 200) else Max(v - 10, 0)
    case Blur =>
      if d == Up then Min(v + 1, 10) else Max(v - 1, 0)
    case HueRotate =>
      if d == Up then JsRem360(v + 10) else JsRem360(v - 10 + 360)
    case Opacity =>
      if d == Up then Min(v + 10, 100) else Max(v - 10, 0)
  }

  /** The whole parameter set after one press of the button `d` of parameter `q`. */
  function Press(p: Params, q: Param, d: Direction): (r: Params)
    requires HasButtons(q)
    ensures ValueOf(r, q) == Step(q, d, ValueOf(p, q))
    ensures AllInRange(p) ==> AllInRange(r)
    ensures forall q' :: q' != q ==> ValueOf(r, q') == ValueOf(p, q')
  {
    WithValue(p, q, Step(q, d, ValueOf(p, q)))
  }

  /** The value after `n` presses of the same button. */
  function Presses(q: Param, d: Direction, v: int, n: nat): int
    requires HasButtons(q)
  {
    if n == 0 then v else Step(q, d, Presses(q, d, v, n - 1))
  }

  // ---------------------------------------------------------------------------
  // Resets.
  // ---------------------------------------------------------------------------

  /** The state key each `case` of the reset switch matches. */
  function Key(q: Param): string {
    match q
    case Brightness => "brightness"
    case Contrast => "contrast"
    case Blur => "blur"
    case Invert => "invert"
    case HueRotate => "hueRotate"
    case Saturate => "saturate"
    case Opacity => "opacity"
  }

  /** The parameter a reset name selects; any other string selects none (the `default` case). */
  function Named(filter: string): (r: Option<Param>)
    ensures r.Some? ==> Key(r.value) == filter
    ensures r.None? ==> forall q :: Key(q) != filter
  {
    if filter == "brightness" then Some(Brightness)
    else if filter == "contrast" then Some(Contrast)
    else if filter == "blur" then Some(Blur)
    else if filter == "invert" then Some(Invert)
    else if filter == "hueRotate" then Some(HueRotate)
    else if filter == "saturate" then Some(Saturate)
    else if filter == "opacity" then Some(Opacity)
    else None
  }

  /** Reset by name: the named parameter goes back to neutral, an unknown name changes nothing. */
  function ResetOne(p: Params, filter: string): (r: Params)
    ensures forall q :: ValueOf(r, q) == if Key(q) == filter then Neutral(q) else ValueOf(p, q)
  {
    match Named(filter)
    case None => p
    case Some(q) => WithValue(p, q, Neutral(q))
  }

  /** Reset all: every parameter back to neutral. */
  function ResetAll(p: Params): (r: Params)
    ensures forall q :: ValueOf(r, q) == Neutral(q)
  {
    Params(100, 100, 0, 0, 0, 100, 100)
  }

  // ---------------------------------------------------------------------------
  // Properties.
  // ---------------------------------------------------------------------------

  /** The initial state is the neutral state, and it is in range. */
  lemma InitialIsNeutral()
    ensures forall q :: ValueOf(Initial, q) == Neutral(q)
    ensures AllInRange(Initial)
    ensures forall p :: ResetAll(p) == Initial
  {
  }

  /** Resetting twice is resetting once. */
  lemma ResetAllIdempotent(p: Params)
    ensures ResetAll(ResetAll(p)) == ResetAll(p)
  {
  }

  /** Resetting all equals resetting the seven parameters one by one, by name. */
  lemma ResetAllIsEveryReset(p: Params)
    ensures ResetOne(ResetOne(ResetOne(ResetOne(ResetOne(ResetOne(ResetOne(p,
              "brightness"), "contrast"), "blur"), "invert"), "hueRotate"), "saturate"), "opacity")
            == ResetAll(p)
  {
  }

  /** Every parameter's key selects that parameter, and no two parameters share a key. */
  lemma NamedKey(q: Param)
    ensures Named(Key(q)) == Some(q)
  {
  }

  /** A clamped control adds or subtracts its step and stops at the bounds of its range. */
  lemma ClampedStepFollowsPolicy(q: Param, v: int)
    requires HasButtons(q) && q != HueRotate
    ensures Step(q, Up, v) == Min(v + StepSize(q), Hi(q))
    ensures Step(q, Down, v) == Max(v - StepSize(q), 0)
  {
  }

  /** On its range hue rotation is addition modulo 360 (Dafny's `%` and JavaScript's agree there). */
  lemma HueStepIsModular(v: int)
    requires InRange(HueRotate, v)
    ensures Step(HueRotate, Up, v) == (v + 10) % 360
    ensures Step(HueRotate, Down, v) == (v + 350) % 360
  {
  }

  /** 350 raised gives 0, and 0 lowered gives 350. */
  lemma HueWraps()
    ensures Step(HueRotate, Up, 350) == 0
    ensures Step(HueRotate, Down, 0) == 350
  {
  }

  /** On its range, the two hue buttons undo each other. */
  lemma HueUpDownInverse(v: int)
    requires InRange(HueRotate, v)
    ensures Step(HueRotate, Down, Step(HueRotate, Up, v)) == v
    ensures Step(HueRotate, Up, Step(HueRotate, Down, v)) == v
  {
  }

  /** `n` presses of hue-up rotate by `10 * n` degrees modulo 360. */
  lemma {:induction false} HuePresses(v: int, n: nat)
    requires InRange(HueRotate, v)
    ensures Presses(HueRotate, Up, v, n) == (v + 10 * n) % 360
  {
    if n > 0 {
      HuePresses(v, n - 1);
      ModAddStep(v + 10 * (n - 1));
    }
  }

  lemma ModAddStep(a: int)
    requires a >= 0
    ensures (a % 360 + 10) % 360 == (a + 10) % 360
  {
  }

  /** Thirty-six presses of hue-up make a full turn. */
  lemma HueFullTurn(v: int)
    requires InRange(HueRotate, v)
    ensures Presses(HueRotate, Up, v, 36) == v
  {
    HuePresses(v, 36);
  }

  /** Repeated presses of a clamped control saturate at the bound of its range. */
  lemma {:induction false} ClampedPresses(q: Param, v: int, n: nat)
    requires HasButtons(q) && q != HueRotate && InRange(q, v)
    ensures Presses(q, Up, v, n) == Min(v + n * StepSize(q), Hi(q))
    ensures Presses(q, Down, v, n) == Max(v - n * StepSize(q), 0)
  {
    if n > 0 {
      ClampedPresses(q, v, n - 1);
      ClampedStepFollowsPolicy(q, Presses(q, Up, v, n - 1));
      ClampedStepFollowsPolicy(q, Presses(q, Down, v, n - 1));
      assert n * StepSize(q) == (n - 1) * StepSize(q) + StepSize(q);
    }
  }

  /** Clamping loses information: at the top of the range, up then down does not return. */
  lemma ClampedUpDownNotInverse()
    ensures Step(Brightness, Down, Step(Brightness, Up, 200)) == 190
  {
  }
}
