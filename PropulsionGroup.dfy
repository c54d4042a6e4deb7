/**
 * The two closed-form components of the propulsion group: the installed net
 * thrust of the podded fan (fan thrust minus wall drag, per half body) and the
 * total shaft power (fan power plus the heat lost to fan inefficiency, half of
 * which is handed back to the half-body CFD).
 */
module PropulsionGroup {

  // ---------------------------------------------------------------------------
  // NetThrust

  datatype NetThrustInput = HalfFanThrust | HalfDrag

  /** `NetThrust.compute`: installed net thrust `Fn`. */
  function NetThrust(halfFanThrust: real, halfDrag: real): (fn: real)
    ensures fn == halfFanThrust <==> halfDrag == 0.0
    ensures fn + halfDrag == halfFanThrust
  {
    halfFanThrust - halfDrag
  }

  /** `NetThrust.compute_partials`: the partial of `Fn` with respect to each input. */
  function NetThrustPartial(x: NetThrustInput): real
  {
    match x
    case HalfFanThrust => 1.0
    case HalfDrag => -1.0
  }

  /** The partials written by `compute_partials` are the exact slopes in each input. */
  lemma NetThrustPartialsExact(thrust: real, drag: real, d: real)
    ensures NetThrust(thrust + d, drag) - NetThrust(thrust, drag) == NetThrustPartial(HalfFanThrust) * d
    ensures NetThrust(thrust, drag + d) - NetThrust(thrust, drag) == NetThrustPartial(HalfDrag) * d
  {
  }

  /** More drag, less net thrust. */
  lemma NetThrustDecreasesWithDrag(thrust: real, drag1: real, drag2: real)
    requires drag1 < drag2
    ensures NetThrust(thrust, drag2) < NetThrust(thrust, drag1)
  {
  }

  // ---------------------------------------------------------------------------
  // TotalPower

  datatype TotalPowerOut = TotalPowerOut(totalShaftPower: real, halfDeltaHeat: real)

  datatype TotalPowerInput = DeltaHeat | FanPower
  datatype TotalPowerOutput = TotalShaftPower | HalfDeltaHeat

  /** `TotalPower.compute`. */
  function TotalPower(deltaHeat: real, fanPower: real): (r: TotalPowerOut)
    ensures r.totalShaftPower - fanPower == deltaHeat
    ensures 2.0 * r.halfDeltaHeat == deltaHeat
  {
    TotalPowerOut(fanPower + deltaHeat, 0.5 * deltaHeat)
  }

  function TotalPowerValue(r: TotalPowerOut, o: TotalPowerOutput): real
  {
    match o
    case TotalShaftPower => r.totalShaftPower
    case HalfDeltaHeat => r.halfDeltaHeat
  }

  /** The inputs each output is declared to depend on. */
  function TotalPowerDeclared(o: TotalPowerOutput): set<TotalPowerInput>
  {
    match o
    case TotalShaftPower => {FanPower, DeltaHeat}
    case HalfDeltaHeat => {DeltaHeat}
  }

  /**
   * `TotalPower.compute_partials`: 1 for both inputs of the total, 0.5 for the
   * half heat; pairs that are not declared are zero.
   */
  function TotalPowerPartial(o: TotalPowerOutput, x: TotalPowerInput): (p: real)
    ensures x !in TotalPowerDeclared(o) ==> p == 0.0
  {
    match (o, x)
    case (TotalShaftPower, DeltaHeat) => 1.0
    case (TotalShaftPower, FanPower) => 1.0
    case (HalfDeltaHeat, DeltaHeat) => 0.5
    case (HalfDeltaHeat, FanPower) => 0.0
  }

  /** The partials are the exact slopes of `TotalPower` in each input. */
  lemma TotalPowerPartialsExact(deltaHeat: real, fanPower: real, o: TotalPowerOutput, d: real)
    ensures TotalPowerValue(TotalPower(deltaHeat + d, fanPower), o) - TotalPowerValue(TotalPower(deltaHeat, fanPower), o)
            == TotalPowerPartial(o, DeltaHeat) * d
    ensures TotalPowerValue(TotalPower(deltaHeat, fanPower + d), o) - TotalPowerValue(TotalPower(deltaHeat, fanPower), o)
            == TotalPowerPartial(o, FanPower) * d
  {
  }

  /** The half-body heat loss is determined by the heat loss alone. */
  lemma HalfDeltaHeatOnlyFromDeltaHeat(deltaHeat: real, fanPower1: real, fanPower2: real)
    ensures TotalPower(deltaHeat, fanPower1).halfDeltaHeat == TotalPower(deltaHeat, fanPower2).halfDeltaHeat
  {
  }
}
