/**
 * The boundary-condition coupling residuals between the CFD (aero) and the
 * cycle model (prop) at the fan: matching of total and static quantities at
 * the fan exit, a momentum-balance thrust residual, and an energy balance over
 * the control volume around the fan.
 *
 * A component's inputs are a total map from input names to values, as the
 * framework's `inputs` dictionary is; `With` changes one of them.
 */
module BcCoupling {

  // ---------------------------------------------------------------------------
  // BCStaticsConservation

  datatype StaticsInput =
    | AeroPStatExit | AeroPStatFace | AeroVExit | AeroVFace
    | AeroMdotExit | AeroMdotFace | AeroAreaExit | AeroAreaFace
    | AeroTTotExit | AeroPTotExit
    | PropPStatExit | PropTTotExit | PropPTotExit | PropVExit | PropMdotExit | PropAreaExit
    | AeroHalfDrag | TargetNetThrust

  datatype StaticsOutput = ResPs | ResV | ResMdot | ResArea | ResNetThrust | ResPTot | ResTTot

  type StaticsEnv = StaticsInput -> real

  datatype StaticsOut = StaticsOut(resPs: real, resV: real, resMdot: real, resArea: real,
                                   resNetThrust: real, resPTot: real, resTTot: real)

  /** The inputs `env` with input `x` set to `v`, every other input unchanged. */
  function With<I(==,!new)>(env: I -> real, x: I, v: real): (r: I -> real)
    ensures r(x) == v
    ensures forall y :: y != x ==> r(y) == env(y)
  {
    y => if y == x then v else env(y)
  }

  /** The momentum-balance fan thrust: momentum and pressure flux out minus in. */
  function ThrustFan(env: StaticsEnv): real
  {
    (env(AeroMdotExit) * env(AeroVExit) + env(AeroPStatExit) * env(AeroAreaExit))
    - (env(AeroMdotFace) * env(AeroVFace) + env(AeroPStatFace) * env(AeroAreaFace))
  }

  /** The thrust residual: fan thrust minus twice the half-body drag and target net thrust. */
  function ThrustResidual(env: StaticsEnv): real
  {
    ThrustFan(env) - 2.0 * env(AeroHalfDrag) - 2.0 * env(TargetNetThrust)
  }

  /**
   * `BCStaticsConservation.compute`: the seven coupling residuals. Each
   * matching residual vanishes exactly when the CFD and the cycle agree on
   * that quantity; the thrust residual is what remains of the fan thrust after
   * twice (full body) the half-body drag and the target net thrust, so it
   * vanishes exactly when the fan thrust balances those two.
   */
  function Statics(env: StaticsEnv): (r: StaticsOut)
    ensures r.resPTot == 0.0 <==> env(AeroPTotExit) == env(PropPTotExit)
    ensures r.resTTot == 0.0 <==> env(AeroTTotExit) == env(PropTTotExit)
    ensures r.resPs == 0.0 <==> env(AeroPStatExit) == env(PropPStatExit)
    ensures r.resV == 0.0 <==> env(AeroVExit) == env(PropVExit)
    ensures r.resMdot == 0.0 <==> env(AeroMdotExit) == env(PropMdotExit)
    ensures r.resArea == 0.0 <==> env(AeroAreaExit) == env(PropAreaExit)
    ensures r.resNetThrust + 2.0 * env(AeroHalfDrag) + 2.0 * env(TargetNetThrust) == ThrustFan(env)
    ensures r.resNetThrust == 0.0 <==> ThrustFan(env) == 2.0 * (env(AeroHalfDrag) + env(TargetNetThrust))
  {
    StaticsOut(
      resPs := env(AeroPStatExit) - env(PropPStatExit),
      resV := env(AeroVExit) - env(PropVExit),
      resMdot := env(AeroMdotExit) - env(PropMdotExit),
      resArea := env(AeroAreaExit) - env(PropAreaExit),
      resNetThrust := ThrustResidual(env),
      resPTot := env(AeroPTotExit) - env(PropPTotExit),
      resTTot := env(AeroTTotExit) - env(PropTTotExit))
  }

  function StaticsValue(r: StaticsOut, o: StaticsOutput): real
  {
    match o
    case ResPs => r.resPs
    case ResV => r.resV
    case ResMdot => r.resMdot
    case ResArea => r.resArea
    case ResNetThrust => r.resNetThrust
    case ResPTot => r.resPTot
    case ResTTot => r.resTTot
  }

  /** The fan-exit inputs from the CFD and from the cycle, exchanged. */
  function SwapAeroProp(env: StaticsEnv): StaticsEnv
  {
    (y: StaticsInput) => match y
         case AeroPStatExit => env(PropPStatExit)
         case PropPStatExit => env(AeroPStatExit)
         case AeroVExit => env(PropVExit)
         case PropVExit => env(AeroVExit)
         case AeroMdotExit => env(PropMdotExit)
         case PropMdotExit => env(AeroMdotExit)
         case AeroAreaExit => env(PropAreaExit)
         case PropAreaExit => env(AeroAreaExit)
         case AeroPTotExit => env(PropPTotExit)
         case PropPTotExit => env(AeroPTotExit)
         case AeroTTotExit => env(PropTTotExit)
         case PropTTotExit => env(AeroTTotExit)
         case _ => env(y)
  }

  /** Every matching residual is antisymmetric in the CFD and cycle values. */
  lemma SwapNegatesMatching(env: StaticsEnv, o: StaticsOutput)
    requires o != ResNetThrust
    ensures StaticsValue(Statics(SwapAeroProp(env)), o) == -StaticsValue(Statics(env), o)
  {
    var swapped := SwapAeroProp(env);
    MatchingIsDifference(env, o);
    MatchingIsDifference(swapped, o);
    var (a, p) := MatchedPair(o);
    assert swapped(a) == env(p) && swapped(p) == env(a);
  }

  /** The inputs each statics output is declared to depend on. */
  function StaticsDeclared(o: StaticsOutput): set<StaticsInput>
  {
    match o
    case ResPTot => {AeroPTotExit, PropPTotExit}
    case ResTTot => {AeroTTotExit, PropTTotExit}
    case ResPs => {AeroPStatExit, PropPStatExit}
    case ResV => {AeroVExit, PropVExit}
    case ResMdot => {AeroMdotExit, PropMdotExit}
    case ResArea => {AeroAreaExit, PropAreaExit}
    case ResNetThrust =>
      {AeroAreaExit, AeroAreaFace, AeroMdotFace, AeroMdotExit, AeroVExit, AeroVFace,
       AeroPStatFace, AeroPStatExit, AeroHalfDrag, TargetNetThrust}
  }

  /**
   * The declarations miss no dependency: inputs that agree on the declared
   * set of `o` give the same `o`.
   */
  lemma StaticsFrame(env: StaticsEnv, env': StaticsEnv, o: StaticsOutput)
    requires forall y :: y in StaticsDeclared(o) ==> env(y) == env'(y)
    ensures StaticsValue(Statics(env), o) == StaticsValue(Statics(env'), o)
  {
    match o
    case ResNetThrust =>
      assert ThrustFan(env) == ThrustFan(env') by {
        assert AeroMdotExit in StaticsDeclared(o) && AeroVExit in StaticsDeclared(o);
        assert AeroPStatExit in StaticsDeclared(o) && AeroAreaExit in StaticsDeclared(o);
        assert AeroMdotFace in StaticsDeclared(o) && AeroVFace in StaticsDeclared(o);
        assert AeroPStatFace in StaticsDeclared(o) && AeroAreaFace in StaticsDeclared(o);
      }
      assert AeroHalfDrag in StaticsDeclared(o) && TargetNetThrust in StaticsDeclared(o);
    case ResPTot =>
      assert AeroPTotExit in StaticsDeclared(o) && PropPTotExit in StaticsDeclared(o);
    case ResTTot =>
      assert AeroTTotExit in StaticsDeclared(o) && PropTTotExit in StaticsDeclared(o);
    case ResPs =>
      assert AeroPStatExit in StaticsDeclared(o) && PropPStatExit in StaticsDeclared(o);
    case ResV =>
      assert AeroVExit in StaticsDeclared(o) && PropVExit in StaticsDeclared(o);
    case ResMdot =>
      assert AeroMdotExit in StaticsDeclared(o) && PropMdotExit in StaticsDeclared(o);
    case ResArea =>
      assert AeroAreaExit in StaticsDeclared(o) && PropAreaExit in StaticsDeclared(o);
  }

  /**
   * Every declared dependency is real: changing a declared input from 1 to 2,
   * with every other input 1, changes the output.
   */
  lemma StaticsDeclaredMatters(o: StaticsOutput, x: StaticsInput)
    requires x in StaticsDeclared(o)
    ensures StaticsValue(Statics(With(_ => 1.0, x, 2.0)), o) != StaticsValue(Statics(_ => 1.0), o)
  {
    var one: StaticsEnv := _ => 1.0;
    var e := With(one, x, 2.0);
    if o == ResNetThrust {
      ThrustDeclaredMatters(x);
      assert StaticsValue(Statics(e), o) == ThrustResidual(e);
      assert StaticsValue(Statics(one), o) == ThrustResidual(one);
    } else {
      MatchingDeclaredMatters(o, x);
    }
  }

  lemma MatchingDeclaredMatters(o: StaticsOutput, x: StaticsInput)
    requires o != ResNetThrust && x in StaticsDeclared(o)
    ensures StaticsValue(Statics(With(_ => 1.0, x, 2.0)), o) != StaticsValue(Statics(_ => 1.0), o)
  {
    var one: StaticsEnv := _ => 1.0;
    var e := With(one, x, 2.0);
    MatchingIsDifference(one, o);
    MatchingIsDifference(e, o);
    var (a, p) := MatchedPair(o);
    DeclaredMatching(o, x);
    assert e(a) - e(p) != one(a) - one(p);
  }

  /** A matching residual is declared to depend on its two compared inputs only. */
  lemma DeclaredMatching(o: StaticsOutput, x: StaticsInput)
    requires o != ResNetThrust && x in StaticsDeclared(o)
    ensures x == MatchedPair(o).0 || x == MatchedPair(o).1
  {
  }

  /** A matching residual is the CFD value minus the cycle value it is compared with. */
  lemma MatchingIsDifference(env: StaticsEnv, o: StaticsOutput)
    requires o != ResNetThrust
    ensures StaticsValue(Statics(env), o) == env(MatchedPair(o).0) - env(MatchedPair(o).1)
  {
  }

  /** The CFD input and the cycle input a matching residual compares. */
  function MatchedPair(o: StaticsOutput): (r: (StaticsInput, StaticsInput))
    requires o != ResNetThrust
    ensures r.0 != r.1
  {
    match o
    case ResPTot => (AeroPTotExit, PropPTotExit)
    case ResTTot => (AeroTTotExit, PropTTotExit)
    case ResPs => (AeroPStatExit, PropPStatExit)
    case ResV => (AeroVExit, PropVExit)
    case ResMdot => (AeroMdotExit, PropMdotExit)
    case ResArea => (AeroAreaExit, PropAreaExit)
  }

  /**
   * The exact partial of the thrust residual with respect to each input (the
   * value the complex-step method approximates): the thrust formula is linear
   * in each input taken alone.
   */
  function ThrustPartial(env: StaticsEnv, x: StaticsInput): (p: real)
    ensures x !in StaticsDeclared(ResNetThrust) ==> p == 0.0
  {
    match x
    case AeroMdotExit => env(AeroVExit)
    case AeroVExit => env(AeroMdotExit)
    case AeroPStatExit => env(AeroAreaExit)
    case AeroAreaExit => env(AeroPStatExit)
    case AeroMdotFace => -env(AeroVFace)
    case AeroVFace => -env(AeroMdotFace)
    case AeroPStatFace => -env(AeroAreaFace)
    case AeroAreaFace => -env(AeroPStatFace)
    case AeroHalfDrag => -2.0
    case TargetNetThrust => -2.0
    case _ => 0.0
  }

  /** Moving one input changes the thrust residual by its partial times the step. */
  lemma ThrustSlope(env: StaticsEnv, x: StaticsInput, v: real)
    ensures ThrustResidual(With(env, x, v)) - ThrustResidual(env) == ThrustPartial(env, x) * (v - env(x))
  {
    if x.AeroMdotExit? || x.AeroVExit? || x.AeroPStatExit? || x.AeroAreaExit? {
      ThrustSlopeExit(env, x, v);
    } else if x.AeroMdotFace? || x.AeroVFace? || x.AeroPStatFace? || x.AeroAreaFace? {
      ThrustSlopeFace(env, x, v);
    } else {
      var e := With(env, x, v);
      assert ThrustFan(e) == ThrustFan(env);
    }
  }

  lemma ThrustSlopeExit(env: StaticsEnv, x: StaticsInput, v: real)
    requires x.AeroMdotExit? || x.AeroVExit? || x.AeroPStatExit? || x.AeroAreaExit?
    ensures ThrustResidual(With(env, x, v)) - ThrustResidual(env) == ThrustPartial(env, x) * (v - env(x))
  {
    var e := With(env, x, v);
    var me, ve, pe, ae := env(AeroMdotExit), env(AeroVExit), env(AeroPStatExit), env(AeroAreaExit);
    var rest := (env(AeroMdotFace) * env(AeroVFace) + env(AeroPStatFace) * env(AeroAreaFace))
                + 2.0 * env(AeroHalfDrag) + 2.0 * env(TargetNetThrust);
    assert ThrustResidual(env) == (me * ve + pe * ae) - rest;
    match x
    case AeroMdotExit =>
      assert ThrustResidual(e) == (v * ve + pe * ae) - rest;
    case AeroVExit =>
      assert ThrustResidual(e) == (me * v + pe * ae) - rest;
    case AeroPStatExit =>
      assert ThrustResidual(e) == (me * ve + v * ae) - rest;
    case AeroAreaExit =>
      assert ThrustResidual(e) == (me * ve + pe * v) - rest;
  }

  lemma ThrustSlopeFace(env: StaticsEnv, x: StaticsInput, v: real)
    requires x.AeroMdotFace? || x.AeroVFace? || x.AeroPStatFace? || x.AeroAreaFace?
    ensures ThrustResidual(With(env, x, v)) - ThrustResidual(env) == ThrustPartial(env, x) * (v - env(x))
  {
    var e := With(env, x, v);
    var mf, vf, pf, af := env(AeroMdotFace), env(AeroVFace), env(AeroPStatFace), env(AeroAreaFace);
    var rest := (env(AeroMdotExit) * env(AeroVExit) + env(AeroPStatExit) * env(AeroAreaExit))
                - 2.0 * env(AeroHalfDrag) - 2.0 * env(TargetNetThrust);
    assert ThrustResidual(env) == rest - (mf * vf + pf * af);
    match x
    case AeroMdotFace =>
      assert ThrustResidual(e) == rest - (v * vf + pf * af);
    case AeroVFace =>
      assert ThrustResidual(e) == rest - (mf * v + pf * af);
    case AeroPStatFace =>
      assert ThrustResidual(e) == rest - (mf * vf + v * af);
    case AeroAreaFace =>
      assert ThrustResidual(e) == rest - (mf * vf + pf * v);
  }

  lemma ThrustDeclaredMatters(x: StaticsInput)
    requires x in StaticsDeclared(ResNetThrust)
    ensures ThrustResidual(With(_ => 1.0, x, 2.0)) != ThrustResidual(_ => 1.0)
  {
    var one: StaticsEnv := _ => 1.0;
    ThrustSlope(one, x, 2.0);
    assert ThrustPartial(one, x) != 0.0;
  }

  // ---------------------------------------------------------------------------
  // BCEnergyConservation

  /** The default specific heat at constant pressure. */
  const DefaultCp: real := 1.0045

  datatype EnergyInput = ShaftPower | MdotFace | MdotExit | TTotFace | TTotExit
  datatype EnergyOutput = EnrFace | EnrExit | ResEnr

  type EnergyEnv = EnergyInput -> real

  datatype EnergyOut = EnergyOut(enrFace: real, enrExit: real, resEnr: real)

  /**
   * `BCEnergyConservation.compute` with specific heat `cp`: energy entering the
   * control volume is half the (full-body) shaft power minus the enthalpy flux
   * at the fan face, so the two together make up half the shaft power; energy
   * leaving is the enthalpy flux at the fan exit. The
   * residual vanishes exactly when half the shaft power equals the total
   * enthalpy flux through both faces.
   */
  function Energy(env: EnergyEnv, cp: real): (r: EnergyOut)
    ensures r.enrFace + cp * env(MdotFace) * env(TTotFace) == 0.5 * env(ShaftPower)
    ensures r.enrExit == cp * env(MdotExit) * env(TTotExit)
    ensures r.resEnr == r.enrFace - r.enrExit
    ensures r.resEnr == 0.0 <==> 0.5 * env(ShaftPower) == cp * (env(MdotFace) * env(TTotFace) + env(MdotExit) * env(TTotExit))
  {
    var enrFace := 0.5 * env(ShaftPower) - env(MdotFace) * env(TTotFace) * cp;
    var enrExit := env(MdotExit) * env(TTotExit) * cp;
    EnergyOut(enrFace, enrExit, enrFace - enrExit)
  }

  function EnergyValue(r: EnergyOut, o: EnergyOutput): real
  {
    match o
    case EnrFace => r.enrFace
    case EnrExit => r.enrExit
    case ResEnr => r.resEnr
  }

  /** The inputs each energy output is declared to depend on; the residual depends on all of them. */
  function EnergyDeclared(o: EnergyOutput): set<EnergyInput>
  {
    match o
    case EnrFace => {ShaftPower, MdotFace, TTotFace}
    case EnrExit => {MdotExit, TTotExit}
    case ResEnr => {ShaftPower, MdotFace, MdotExit, TTotFace, TTotExit}
  }

  /** The declarations miss no dependency: inputs that agree on the declared set of `o` give the same `o`. */
  lemma EnergyFrame(env: EnergyEnv, env': EnergyEnv, o: EnergyOutput, cp: real)
    requires forall y :: y in EnergyDeclared(o) ==> env(y) == env'(y)
    ensures EnergyValue(Energy(env, cp), o) == EnergyValue(Energy(env', cp), o)
  {
    assert MdotExit in EnergyDeclared(ResEnr) && TTotExit in EnergyDeclared(ResEnr);
    assert ShaftPower in EnergyDeclared(ResEnr) && MdotFace in EnergyDeclared(ResEnr) && TTotFace in EnergyDeclared(ResEnr);
    assert ShaftPower in EnergyDeclared(EnrFace) && MdotFace in EnergyDeclared(EnrFace) && TTotFace in EnergyDeclared(EnrFace);
    assert MdotExit in EnergyDeclared(EnrExit) && TTotExit in EnergyDeclared(EnrExit);
  }

  /**
   * Every declared dependency is real (given a non-zero specific heat):
   * changing a declared input from 1 to 2, with every other input 1, changes the output.
   */
  lemma EnergyDeclaredMatters(o: EnergyOutput, x: EnergyInput, cp: real)
    requires cp != 0.0 && x in EnergyDeclared(o)
    ensures EnergyValue(Energy(With(_ => 1.0, x, 2.0), cp), o) != EnergyValue(Energy(_ => 1.0, cp), o)
  {
  }

  /**
   * The component's default specific heat is non-zero, so with it every
   * declared energy dependency is real.
   */
  lemma DefaultCpDeclaredMatters(o: EnergyOutput, x: EnergyInput)
    requires x in EnergyDeclared(o)
    ensures EnergyValue(Energy(With(_ => 1.0, x, 2.0), DefaultCp), o) != EnergyValue(Energy(_ => 1.0, DefaultCp), o)
  {
    EnergyDeclaredMatters(o, x, DefaultCp);
  }
}
