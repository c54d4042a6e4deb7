/**
 * The table of OpenVSP parameters that the nacelle optimisation offers as
 * geometric design variables: the component and parameter group each one
 * belongs to, its bounds, its scaling reference and its finite-difference step.
 *
 * OpenVSP names are strings; every name in the table belongs to a small family
 * (two components, cross-section shape groups `XSecCurve_<n>`, cross-section
 * angle groups `XSec_<n>`, four parameter names), so the table stores the
 * family members and `CompName`, `GroupName` and `ParamName` give the strings.
 */
module GeoVars {

  /** OpenVSP components: `comp_nacelle` and `comp_core`. */
  datatype Comp = Nacelle | Core

  /** Parameter groups: the shape of cross section n, or the angles of cross section n. */
  datatype Group = XSecCurve(index: nat) | XSec(index: nat)

  /** OpenVSP parameter names inside a group. */
  datatype Param = CircleDiameter | EllipseHeight | EllipseWidth | TopLAngle

  /** One CAD parameter: the fields of the `GeoVar` record (its `var` field is `param` here). */
  datatype GeoVar = GeoVar(comp: Comp, group: Group, param: Param,
                           lower: real, upper: real, ref: real, dh: real)

  function CompName(c: Comp): string
  {
    match c
    case Nacelle => "Nacelle"
    case Core => "Core"
  }

  function DigitChar(d: nat): (c: char)
    requires d < 10
    ensures '0' <= c <= '9'
  {
    ('0' as int + d) as char
  }

  /** The decimal text of a natural number, as Python's `f"{n}"` writes it. */
  function DecimalString(n: nat): (s: string)
    ensures |s| >= 1
    decreases n
  {
    if n < 10 then [DigitChar(n)] else DecimalString(n / 10) + [DigitChar(n % 10)]
  }

  function GroupName(g: Group): string
  {
    match g
    case XSecCurve(n) => "XSecCurve_" + DecimalString(n)
    case XSec(n) => "XSec_" + DecimalString(n)
  }

  function ParamName(p: Param): string
  {
    match p
    case CircleDiameter => "Circle_Diameter"
    case EllipseHeight => "Ellipse_Height"
    case EllipseWidth => "Ellipse_Width"
    case TopLAngle => "TopLAngle"
  }

  /** The (component, group, parameter) triple that identifies a CAD parameter. */
  function Key(v: GeoVar): (Comp, Group, Param)
  {
    (v.comp, v.group, v.param)
  }

  /** The design-variable table, in the order the optimiser receives it. */
  const Table: seq<GeoVar> := [
    // core plug diameter, may shrink to half
    GeoVar(Core, XSecCurve(3), CircleDiameter, 15.0, 60.0, 1.0, 0.000001),
    // tangent at the plug
    GeoVar(Core, XSec(3), TopLAngle, -60.0, 60.0, 1.0, 0.000001),
    // nacelle inner and outer trailing edge
    GeoVar(Nacelle, XSecCurve(0), CircleDiameter, 30.0, 150.0, 1.0, 0.000001),
    GeoVar(Nacelle, XSecCurve(8), CircleDiameter, 30.0, 150.0, 1.0, 0.000001),
    // fan exit and fan face
    GeoVar(Nacelle, XSecCurve(1), CircleDiameter, 30.0, 150.0, 1.0, 0.000001),
    GeoVar(Nacelle, XSecCurve(2), CircleDiameter, 30.0, 150.0, 1.0, 0.000001),
    // inlet inner, inlet leading edge and inlet outer (elliptical sections)
    GeoVar(Nacelle, XSecCurve(3), EllipseHeight, 30.0, 150.0, 1.0, 0.000001),
    GeoVar(Nacelle, XSecCurve(3), EllipseWidth, 30.0, 150.0, 1.0, 0.000001),
    GeoVar(Nacelle, XSecCurve(4), EllipseHeight, 30.0, 150.0, 1.0, 0.000001),
    GeoVar(Nacelle, XSecCurve(4), EllipseWidth, 30.0, 150.0, 1.0, 0.000001),
    GeoVar(Nacelle, XSecCurve(5), EllipseHeight, 30.0, 150.0, 1.0, 0.000001),
    GeoVar(Nacelle, XSecCurve(5), EllipseWidth, 30.0, 150.0, 1.0, 0.000001),
    // mid-outer and aft-outer
    GeoVar(Nacelle, XSecCurve(6), CircleDiameter, 30.0, 150.0, 1.0, 0.000001),
    GeoVar(Nacelle, XSecCurve(7), CircleDiameter, 30.0, 150.0, 1.0, 0.000001),
    // nacelle angles; the inlet leading-edge angle (XSec_4) stays fixed
    GeoVar(Nacelle, XSec(0), TopLAngle, 120.0, 240.0, 1.0, 0.000001),
    GeoVar(Nacelle, XSec(3), TopLAngle, 120.0, 240.0, 1.0, 0.000001),
    GeoVar(Nacelle, XSec(5), TopLAngle, -60.0, 60.0, 1.0, 0.000001),
    GeoVar(Nacelle, XSec(6), TopLAngle, -60.0, 60.0, 1.0, 0.000001),
    GeoVar(Nacelle, XSec(7), TopLAngle, -60.0, 60.0, 1.0, 0.000001)
  ]

  /** A shape group carries only diameter or ellipse-axis parameters. */
  predicate ShapeParam(p: Param)
  {
    p == CircleDiameter || p == EllipseHeight || p == EllipseWidth
  }

  /**
   * What every row of the table satisfies: a non-empty interval of bounds,
   * unit scaling reference, a 1e-6 step, and a parameter that fits its group:
   * `XSecCurve_*` groups carry shape parameters, `XSec_*` groups `TopLAngle`.
   */
  predicate WellFormedEntry(v: GeoVar)
  {
    && v.lower < v.upper
    && v.ref == 1.0
    && v.dh == 0.000001
    && (v.group.XSecCurve? ==> ShapeParam(v.param))
    && (v.group.XSec? ==> v.param == TopLAngle)
  }

  lemma TableSize()
    ensures |Table| == 19
  {
  }

  lemma TableEntriesWellFormed()
    ensures forall i :: 0 <= i < |Table| ==> WellFormedEntry(Table[i])
  {
  }

  /** No CAD parameter appears twice in the table. */
  lemma TableKeysDistinct()
    ensures forall i, j :: 0 <= i < j < |Table| ==> Key(Table[i]) != Key(Table[j])
  {
  }

  /** The inlet leading-edge angle of the nacelle is not a design variable. */
  lemma NoNacelleLeadingEdgeAngle()
    ensures forall i :: 0 <= i < |Table| ==> !(Table[i].comp == Nacelle && Table[i].group == XSec(4))
  {
  }

  /** Nacelle diameters and ellipse axes range over [30, 150]; the core plug diameter over [15, 60]. */
  lemma DiameterBounds()
    ensures forall i :: 0 <= i < |Table| && Table[i].comp == Nacelle && ShapeParam(Table[i].param) ==>
              Table[i].lower == 30.0 && Table[i].upper == 150.0
    ensures forall i :: 0 <= i < |Table| && Table[i].comp == Core && Table[i].param == CircleDiameter ==>
              Table[i].lower == 15.0 && Table[i].upper == 60.0
  {
  }

  // ---------------------------------------------------------------------------
  // The rendered names determine the parameter.

  /** Decimal text is made of digits only. */
  lemma {:induction false} DecimalStringDigits(n: nat)
    ensures forall k :: 0 <= k < |DecimalString(n)| ==> '0' <= DecimalString(n)[k] <= '9'
    decreases n
  {
    if n >= 10 {
      DecimalStringDigits(n / 10);
    }
  }

  /** Different numbers have different decimal text. */
  lemma {:induction false} DecimalStringInjective(a: nat, b: nat)
    requires DecimalString(a) == DecimalString(b)
    ensures a == b
    decreases a
  {
    var s := DecimalString(a);
    if a < 10 && b < 10 {
      assert DigitChar(a) == s[0] == DigitChar(b);
    } else if a >= 10 && b >= 10 {
      var pa, pb := DecimalString(a / 10), DecimalString(b / 10);
      assert s == pa + [DigitChar(a % 10)] == pb + [DigitChar(b % 10)];
      assert |pa| == |pb|;
      assert DigitChar(a % 10) == s[|s| - 1] == DigitChar(b % 10);
      assert pa == s[..|s| - 1] == pb;
      DecimalStringInjective(a / 10, b / 10);
    }
    // one number below 10 and one above: the texts differ in length
  }

  /** A group name contains no ':' (it can sit between separators). */
  lemma GroupNameNoColon(g: Group)
    ensures ':' !in GroupName(g)
  {
    DecimalStringDigits(g.index);
    var d := DecimalString(g.index);
    var prefix := if g.XSecCurve? then "XSecCurve_" else "XSec_";
    assert GroupName(g) == prefix + d;
    forall k | 0 <= k < |GroupName(g)| ensures GroupName(g)[k] != ':' {
      if k >= |prefix| {
        assert GroupName(g)[k] == d[k - |prefix|];
      }
    }
  }

  lemma {:induction false} GroupNameInjective(g: Group, h: Group)
    requires GroupName(g) == GroupName(h)
    ensures g == h
  {
    var s := GroupName(g);
    // index 4 tells the two families apart: 'C' in "XSecCurve_", '_' in "XSec_"
    assert s[4] == (if g.XSecCurve? then 'C' else '_');
    assert s[4] == (if h.XSecCurve? then 'C' else '_');
    var prefix := if g.XSecCurve? then "XSecCurve_" else "XSec_";
    assert s == prefix + DecimalString(g.index) == prefix + DecimalString(h.index);
    assert DecimalString(g.index) == s[|prefix|..] == DecimalString(h.index);
    DecimalStringInjective(g.index, h.index);
  }

  lemma ParamNameInjective(p: Param, q: Param)
    requires ParamName(p) == ParamName(q)
    ensures p == q
  {
  }

  lemma CompNameInjective(c: Comp, d: Comp)
    requires CompName(c) == CompName(d)
    ensures c == d
  {
  }

  lemma ParamNameNoColon(p: Param)
    ensures ':' !in ParamName(p)
  {
  }
}
