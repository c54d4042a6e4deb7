/**
 * Half-body to full-body scaling: the CFD runs on half of the nacelle, so
 * mass flows, areas and fan power are doubled, and the fan-face mass flow also
 * changes sign (the CFD reports it as flow leaving the domain).
 */
module FullBody {

  /** The half-body quantities read by `FullBody`. */
  datatype HalfBody = HalfBody(halfMdotFace: real, halfMdotExit: real,
                               halfAreaFace: real, halfAreaExit: real,
                               halfFanPower: real)

  /** The full-body quantities it writes. */
  datatype FullBodyOut = FullBodyOut(mdotFace: real, mdotExit: real,
                                     areaFace: real, areaExit: real,
                                     fanPower: real)

  datatype Input = HalfMdotFace | HalfMdotExit | HalfAreaFace | HalfAreaExit | HalfFanPower
  datatype Output = MdotFace | MdotExit | AreaFace | AreaExit | FanPower

  function InputValue(h: HalfBody, x: Input): real
  {
    match x
    case HalfMdotFace => h.halfMdotFace
    case HalfMdotExit => h.halfMdotExit
    case HalfAreaFace => h.halfAreaFace
    case HalfAreaExit => h.halfAreaExit
    case HalfFanPower => h.halfFanPower
  }

  /** `h` with input `x` set to `v`, every other input unchanged. */
  function WithInput(h: HalfBody, x: Input, v: real): (r: HalfBody)
    ensures InputValue(r, x) == v
    ensures forall y :: y != x ==> InputValue(r, y) == InputValue(h, y)
  {
    match x
    case HalfMdotFace => h.(halfMdotFace := v)
    case HalfMdotExit => h.(halfMdotExit := v)
    case HalfAreaFace => h.(halfAreaFace := v)
    case HalfAreaExit => h.(halfAreaExit := v)
    case HalfFanPower => h.(halfFanPower := v)
  }

  function OutputValue(f: FullBodyOut, o: Output): real
  {
    match o
    case MdotFace => f.mdotFace
    case MdotExit => f.mdotExit
    case AreaFace => f.areaFace
    case AreaExit => f.areaExit
    case FanPower => f.fanPower
  }

  /** The half-body values a full-body record was scaled from. */
  function HalfOf(f: FullBodyOut): HalfBody
  {
    HalfBody(-f.mdotFace / 2.0, f.mdotExit / 2.0, f.areaFace / 2.0, f.areaExit / 2.0, f.fanPower / 2.0)
  }

  /** `FullBody.compute`. */
  function Compute(h: HalfBody): (f: FullBodyOut)
    ensures HalfOf(f) == h
    ensures h.halfAreaFace > 0.0 ==> f.areaFace > 0.0
    ensures h.halfAreaExit > 0.0 ==> f.areaExit > 0.0
    ensures h.halfMdotFace > 0.0 ==> f.mdotFace < 0.0
  {
    FullBodyOut(-2.0 * h.halfMdotFace, 2.0 * h.halfMdotExit,
                2.0 * h.halfAreaFace, 2.0 * h.halfAreaExit,
                2.0 * h.halfFanPower)
  }

  /** The one input each output is declared to depend on. */
  function DeclaredInput(o: Output): Input
  {
    match o
    case MdotFace => HalfMdotFace
    case MdotExit => HalfMdotExit
    case AreaFace => HalfAreaFace
    case AreaExit => HalfAreaExit
    case FanPower => HalfFanPower
  }

  /** The declared constant partial of each output with respect to its input. */
  function DeclaredPartial(o: Output): real
  {
    match o
    case MdotFace => -2.0
    case _ => 2.0
  }

  /**
   * The declared Jacobian, with undeclared entries zero as the framework
   * treats them, is the exact slope of `Compute` in every input direction.
   */
  lemma DeclaredPartialsExact(h: HalfBody, o: Output, x: Input, d: real)
    ensures OutputValue(Compute(WithInput(h, x, InputValue(h, x) + d)), o) - OutputValue(Compute(h), o)
            == (if x == DeclaredInput(o) then DeclaredPartial(o) * d else 0.0)
  {
    var h' := WithInput(h, x, InputValue(h, x) + d);
    assert forall y :: y != x ==> InputValue(h', y) == InputValue(h, y);
    assert InputValue(h', x) == InputValue(h, x) + d;
    match o
    case MdotFace =>
      assert h'.halfMdotFace == InputValue(h', HalfMdotFace);
    case MdotExit =>
      assert h'.halfMdotExit == InputValue(h', HalfMdotExit);
    case AreaFace =>
      assert h'.halfAreaFace == InputValue(h', HalfAreaFace);
    case AreaExit =>
      assert h'.halfAreaExit == InputValue(h', HalfAreaExit);
    case FanPower =>
      assert h'.halfFanPower == InputValue(h', HalfFanPower);
  }

  /** Different half-body states give different full-body states: no information is lost. */
  lemma ComputeInjective(h: HalfBody, k: HalfBody)
    requires Compute(h) == Compute(k)
    ensures h == k
  {
    assert h == HalfOf(Compute(h));
  }

  /** A zero half-body state gives a zero full-body state. */
  lemma ZeroInZeroOut()
    ensures Compute(HalfBody(0.0, 0.0, 0.0, 0.0, 0.0)) == FullBodyOut(0.0, 0.0, 0.0, 0.0, 0.0)
  {
  }
}
