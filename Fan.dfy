/**
 * The fan's own closed-form components: the fan pressure ratio from the CFD
 * total pressures, and the fan performance (shaft power and the heat lost to
 * the difference between real and ideal enthalpy rise).
 */
module Fan {

  datatype Option<T> = None | Some(value: T)

  // ---------------------------------------------------------------------------
  // FPR

  /**
   * `FPR.compute`: fan-exit over fan-face total pressure. A zero face pressure
   * has no finite ratio (the array division yields inf or nan); that is `None`.
   */
  function Fpr(exit: real, face: real): (r: Option<real>)
    ensures r.Some? <==> face != 0.0
    ensures r.Some? ==> r.value * face == exit
  {
    if face == 0.0 then None else Some(exit / face)
  }

  /** The two partials of `FPR`. */
  datatype FprJacobian = FprJacobian(dFace: real, dExit: real)

  /** `FPR.compute_partials`; like `compute`, nothing finite at zero face pressure. */
  function FprPartials(exit: real, face: real): (r: Option<FprJacobian>)
    ensures r.Some? <==> face != 0.0
    ensures r.Some? ==> r.value.dExit * face == 1.0
    ensures r.Some? ==> r.value.dFace * (face * face) == -exit
  {
    if face == 0.0 then None else Some(FprJacobian(-exit / (face * face), 1.0 / face))
  }

  /** With a positive face pressure the fan compresses (FPR > 1) exactly when the exit pressure is higher. */
  lemma FprAboveOne(exit: real, face: real)
    requires face > 0.0
    ensures Fpr(exit, face).value > 1.0 <==> exit > face
  {
    var r := Fpr(exit, face).value;
    assert (r - 1.0) * face == exit - face;
    PositiveFactor(r - 1.0, face);
  }

  lemma PositiveFactor(x: real, k: real)
    requires k > 0.0
    ensures x * k > 0.0 <==> x > 0.0
  {
  }

  /** FPR is linear in the exit pressure: the partial `1/face` is its exact slope. */
  lemma FprExitSlope(exit: real, face: real, h: real)
    requires face != 0.0
    ensures Fpr(exit + h, face).value - Fpr(exit, face).value == FprPartials(exit, face).value.dExit * h
  {
    var r, r', s := exit / face, (exit + h) / face, 1.0 / face;
    assert r * face == exit && r' * face == exit + h && s * face == 1.0;
    assert (r' - r) * face == h;
    assert (s * h) * face == h;
    assert (r' - r - s * h) * face == 0.0;
  }

  /** `x` is the quotient `a / b` when `x * b == a`. */
  lemma DivUnique(x: real, a: real, b: real)
    requires b != 0.0 && x * b == a
    ensures x == a / b
  {
    assert (x - a / b) * b == 0.0;
  }

  lemma RatioDifference(exit: real, face: real, h: real)
    requires face != 0.0 && face + h != 0.0
    ensures (exit / (face + h) - exit / face) * (face * (face + h)) == -(exit * h)
  {
    var g := face + h;
    var r, r' := exit / face, exit / g;
    assert r * face == exit;
    assert r' * g == exit;
    assert (r' - r) * (face * g) == (r' * g) * face - (r * face) * g;
  }

  /** The exact change of FPR when the face pressure moves from `face` to `face + h`. */
  lemma FprFaceDifference(exit: real, face: real, h: real)
    requires face != 0.0 && face + h != 0.0
    ensures Fpr(exit, face + h).value - Fpr(exit, face).value == -(exit * h) / (face * (face + h))
  {
    NonZeroProduct(face, face + h);
    RatioDifference(exit, face, h);
    DivUnique(exit / (face + h) - exit / face, -(exit * h), face * (face + h));
  }

  lemma NonZeroProduct(x: real, y: real)
    requires x != 0.0 && y != 0.0
    ensures x * y != 0.0
  {
  }

  /**
   * The difference quotient minus the declared partial, as an out-parameter so
   * that callers see only its defining equation.
   */
  lemma RatioQuotientError(exit: real, face: real, h: real) returns (err: real)
    requires face != 0.0 && face + h != 0.0 && h != 0.0
    ensures err == (exit / (face + h) - exit / face) / h - (-exit / (face * face))
    ensures err * (face * face * (face + h)) == exit * h
  {
    err := (exit / (face + h) - exit / face) / h - (-exit / (face * face));
    var g := face + h;
    var dd := exit / g - exit / face;
    RatioDifference(exit, face, h);
    var q := dd / h;
    assert q * h == dd;
    var p := -exit / (face * face);
    assert p * (face * face) == -exit;
    assert dd * (face * g) == -(exit * h);
    assert err * h * (face * face * g) == dd * (face * g) * face - p * (face * face) * g * h;
    assert err * h * (face * face * g) == (exit * h) * h;
    assert (err * (face * face * g) - exit * h) * h == 0.0;
  }

  /**
   * The difference quotient in the face pressure differs from the declared
   * partial `-exit/face^2` by `exit*h/(face^2*(face+h))`, which vanishes with `h`.
   */
  lemma FprFaceQuotientError(exit: real, face: real, h: real)
    requires face != 0.0 && face + h != 0.0 && h != 0.0
    ensures ((Fpr(exit, face + h).value - Fpr(exit, face).value) / h - FprPartials(exit, face).value.dFace)
              * (face * face * (face + h)) == exit * h
  {
    var err := RatioQuotientError(exit, face, h);
  }

  // ---------------------------------------------------------------------------
  // FanPerformance

  datatype FanPerfIn = FanPerfIn(mdotFace: real, hReal: real, hIdeal: real, fanPower: real)
  datatype FanPerfOut = FanPerfOut(shaftPower: real, deltaHeat: real)

  datatype FanPerfInput = MdotFace | HReal | HIdeal | FanPower
  datatype FanPerfOutput = ShaftPower | DeltaHeat

  function FanPerfInputValue(i: FanPerfIn, x: FanPerfInput): real
  {
    match x
    case MdotFace => i.mdotFace
    case HReal => i.hReal
    case HIdeal => i.hIdeal
    case FanPower => i.fanPower
  }

  /** `i` with input `x` set to `v`, every other input unchanged. */
  function FanPerfWith(i: FanPerfIn, x: FanPerfInput, v: real): (r: FanPerfIn)
    ensures FanPerfInputValue(r, x) == v
    ensures forall y :: y != x ==> FanPerfInputValue(r, y) == FanPerfInputValue(i, y)
  {
    match x
    case MdotFace => i.(mdotFace := v)
    case HReal => i.(hReal := v)
    case HIdeal => i.(hIdeal := v)
    case FanPower => i.(fanPower := v)
  }

  function FanPerfOutputValue(o: FanPerfOut, y: FanPerfOutput): real
  {
    match y
    case ShaftPower => o.shaftPower
    case DeltaHeat => o.deltaHeat
  }

  /**
   * `FanPerformance.compute`: the shaft power is the cycle's fan power with the
   * opposite sign, and the heat loss is the mass flow times the excess of the
   * real over the ideal enthalpy.
   */
  function FanPerformance(i: FanPerfIn): (o: FanPerfOut)
    ensures o.shaftPower + i.fanPower == 0.0
    ensures i.hReal == i.hIdeal ==> o.deltaHeat == 0.0
    ensures i.mdotFace >= 0.0 && i.hReal >= i.hIdeal ==> o.deltaHeat >= 0.0
  {
    FanPerfOut(-i.fanPower, i.mdotFace * (i.hReal - i.hIdeal))
  }

  /** The inputs each output is declared to depend on. */
  function FanPerfDeclared(y: FanPerfOutput): set<FanPerfInput>
  {
    match y
    case ShaftPower => {FanPower}
    case DeltaHeat => {MdotFace, HReal, HIdeal}
  }

  /** `FanPerformance.compute_partials`; undeclared pairs are zero. */
  function FanPerfPartial(i: FanPerfIn, y: FanPerfOutput, x: FanPerfInput): (p: real)
    ensures x !in FanPerfDeclared(y) ==> p == 0.0
  {
    match (y, x)
    case (ShaftPower, FanPower) => -1.0
    case (ShaftPower, MdotFace) => 0.0
    case (ShaftPower, HReal) => 0.0
    case (ShaftPower, HIdeal) => 0.0
    case (DeltaHeat, MdotFace) => 1.0 * (i.hReal - i.hIdeal)
    case (DeltaHeat, HReal) => i.mdotFace
    case (DeltaHeat, HIdeal) => -i.mdotFace
    case (DeltaHeat, FanPower) => 0.0
  }

  /**
   * Each output is linear in each single input, so the partials written by
   * `compute_partials` are its exact slopes, in every direction.
   */
  lemma FanPerfPartialsExact(i: FanPerfIn, y: FanPerfOutput, x: FanPerfInput, d: real)
    ensures FanPerfOutputValue(FanPerformance(FanPerfWith(i, x, FanPerfInputValue(i, x) + d)), y)
              - FanPerfOutputValue(FanPerformance(i), y)
            == FanPerfPartial(i, y, x) * d
  {
    var m, hr, hi := i.mdotFace, i.hReal, i.hIdeal;
    match x
    case MdotFace =>
      assert (m + d) * (hr - hi) - m * (hr - hi) == (hr - hi) * d;
    case HReal =>
      assert m * ((hr + d) - hi) - m * (hr - hi) == m * d;
    case HIdeal =>
      assert m * (hr - (hi + d)) - m * (hr - hi) == -m * d;
    case FanPower =>
  }

  /**
   * Every declared dependency is real: at a state with positive mass flow and
   * real enthalpy above ideal, raising any declared input by one changes the
   * output it is declared for.
   */
  lemma FanPerfDeclaredMatters(y: FanPerfOutput, x: FanPerfInput)
    requires x in FanPerfDeclared(y)
    ensures var i := FanPerfIn(1.0, 2.0, 1.0, 1.0);
            FanPerfOutputValue(FanPerformance(FanPerfWith(i, x, FanPerfInputValue(i, x) + 1.0)), y)
              != FanPerfOutputValue(FanPerformance(i), y)
  {
    var i := FanPerfIn(1.0, 2.0, 1.0, 1.0);
    FanPerfPartialsExact(i, y, x, 1.0);
  }
}
