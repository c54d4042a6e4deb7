/**
 * How the optimisation driver selects its geometric design variables: the
 * filter it builds from cross-section and angle numbers, what that filter
 * picks out of the table, and how the two diameters it leaves out are the
 * ones the geometry links drive.
 */
module AeropropRun {
  import opened GeoVars
  import opened AddGeoDvs
  import GeoComps

  const NacelleXSecs: seq<nat> := [0, 1, 3, 4, 5, 6, 7]
  const NacelleAngles: seq<nat> := [0, 3, 5, 6, 7]
  const CoreXSecs: seq<nat> := [3]
  const CoreAngles: seq<nat> := [3]

  /** `[f"XSecCurve_{i}" for i in ns]` */
  function CurveGroupNames(ns: seq<nat>): (r: seq<string>)
    ensures |r| == |ns|
    ensures forall k :: 0 <= k < |ns| ==> r[k] == GroupName(XSecCurve(ns[k]))
  {
    if ns == [] then [] else ["XSecCurve_" + DecimalString(ns[0])] + CurveGroupNames(ns[1..])
  }

  /** `[f"XSec_{i}" for i in ns]` */
  function AngleGroupNames(ns: seq<nat>): (r: seq<string>)
    ensures |r| == |ns|
    ensures forall k :: 0 <= k < |ns| ==> r[k] == GroupName(XSec(ns[k]))
  {
    if ns == [] then [] else ["XSec_" + DecimalString(ns[0])] + AngleGroupNames(ns[1..])
  }

  /** The filter the driver hands to the registration, keys in insertion order. */
  const GeoDvFilter: seq<FilterEntry> := [
    FilterEntry("Nacelle", CurveGroupNames(NacelleXSecs) + AngleGroupNames(NacelleAngles)),
    FilterEntry("Core", CurveGroupNames(CoreXSecs) + AngleGroupNames(CoreAngles))
  ]

  lemma {:induction false} CurveListed(g: Group, ns: seq<nat>)
    ensures GroupName(g) in CurveGroupNames(ns) <==> g.XSecCurve? && g.index in ns
  {
    var names := CurveGroupNames(ns);
    if GroupName(g) in names {
      var k :| 0 <= k < |names| && names[k] == GroupName(g);
      GroupNameInjective(g, XSecCurve(ns[k]));
    }
    if g.XSecCurve? && g.index in ns {
      var k :| 0 <= k < |ns| && ns[k] == g.index;
      assert names[k] == GroupName(g);
    }
  }

  lemma {:induction false} AngleListed(g: Group, ns: seq<nat>)
    ensures GroupName(g) in AngleGroupNames(ns) <==> g.XSec? && g.index in ns
  {
    var names := AngleGroupNames(ns);
    if GroupName(g) in names {
      var k :| 0 <= k < |names| && names[k] == GroupName(g);
      GroupNameInjective(g, XSec(ns[k]));
    }
    if g.XSec? && g.index in ns {
      var k :| 0 <= k < |ns| && ns[k] == g.index;
      assert names[k] == GroupName(g);
    }
  }

  /** A group is listed exactly when its family and number are. */
  lemma GroupListed(g: Group, curves: seq<nat>, angles: seq<nat>)
    ensures GroupName(g) in CurveGroupNames(curves) + AngleGroupNames(angles)
            <==> (g.XSecCurve? && g.index in curves) || (g.XSec? && g.index in angles)
  {
    CurveListed(g, curves);
    AngleListed(g, angles);
  }

  /** The driver's selection, in terms of component, group family and number. */
  predicate DriverSelects(v: GeoVar)
  {
    match v.comp
    case Nacelle =>
      (v.group.XSecCurve? && v.group.index in NacelleXSecs) || (v.group.XSec? && v.group.index in NacelleAngles)
    case Core =>
      (v.group.XSecCurve? && v.group.index in CoreXSecs) || (v.group.XSec? && v.group.index in CoreAngles)
  }

  lemma DriverFilterSelects(v: GeoVar)
    ensures Selected(v, GeoDvFilter) <==> DriverSelects(v)
  {
    GroupListed(v.group, NacelleXSecs, NacelleAngles);
    GroupListed(v.group, CoreXSecs, CoreAngles);
    assert Matches(v, GeoDvFilter[0]) <==> v.comp == Nacelle && DriverSelects(v);
    assert Matches(v, GeoDvFilter[1]) <==> v.comp == Core && DriverSelects(v);
  }

  /** The registration of every entry of `vs`, in order. */
  function DesignVarsOf(vs: seq<GeoVar>): (r: seq<DesignVar>)
    ensures |r| == |vs|
    ensures forall k :: 0 <= k < |vs| ==> r[k] == ToDesignVar(vs[k])
  {
    if vs == [] then [] else [ToDesignVar(vs[0])] + DesignVarsOf(vs[1..])
  }

  lemma {:induction false} SelectedDesignVarsAppend(a: seq<GeoVar>, b: seq<GeoVar>, filter: seq<FilterEntry>)
    ensures SelectedDesignVars(a + b, filter) == SelectedDesignVars(a, filter) + SelectedDesignVars(b, filter)
    decreases |a|
  {
    if a != [] {
      assert (a + b)[1..] == a[1..] + b;
      assert (a + b)[0] == a[0];
      SelectedDesignVarsAppend(a[1..], b, filter);
    } else {
      assert a + b == b;
    }
  }

  lemma {:induction false} AllSelected(vs: seq<GeoVar>, filter: seq<FilterEntry>)
    requires forall v :: v in vs ==> Selected(v, filter)
    ensures SelectedDesignVars(vs, filter) == DesignVarsOf(vs)
    decreases |vs|
  {
    if vs != [] {
      assert vs[0] in vs;
      assert forall v :: v in vs[1..] ==> v in vs;
      AllSelected(vs[1..], filter);
    }
  }

  lemma SkippedContributesNothing(v: GeoVar, filter: seq<FilterEntry>)
    requires !Selected(v, filter)
    ensures SelectedDesignVars([v], filter) == []
  {
    assert [v][1..] == [];
  }

  /** Which table rows the driver's filter selects: all but rows 3 and 5. */
  lemma {:induction false} DriverSelectsTableRows()
    ensures forall i :: 0 <= i < |Table| ==> (Selected(Table[i], GeoDvFilter) <==> i != 3 && i != 5)
  {
    forall i | 0 <= i < |Table| ensures Selected(Table[i], GeoDvFilter) <==> i != 3 && i != 5 {
      DriverFilterSelects(Table[i]);
    }
  }

  /**
   * With the driver's filter, 17 of the 19 table entries are registered, in
   * table order, each with its own bounds and reference; the two left out are
   * the nacelle diameters `XSecCurve_8` and `XSecCurve_2`.
   */
  lemma DriverRegistrations()
    ensures Registrations(Table, GeoDvFilter) == DesignVarsOf(Table[..3] + Table[4..5] + Table[6..])
    ensures |Registrations(Table, GeoDvFilter)| == 17
  {
    DriverFilterKeysDistinct();
    RegistrationsAreSelected(Table, GeoDvFilter);
    DriverSelectsTableRows();
    DropRowsThreeAndFive(Table, GeoDvFilter);
  }

  /** The driver's call never asks the model to add the same design-variable name twice. */
  lemma DriverNamesDistinct()
    ensures forall i, j :: 0 <= i < j < |Registrations(Table, GeoDvFilter)| ==>
              Registrations(Table, GeoDvFilter)[i].name != Registrations(Table, GeoDvFilter)[j].name
  {
    DriverFilterKeysDistinct();
    TableKeysDistinct();
    RegisteredNamesDistinct(Table, GeoDvFilter);
  }

  lemma DriverFilterKeysDistinct()
    ensures DistinctKeys(GeoDvFilter)
  {
  }

  lemma DropRowsThreeAndFive(t: seq<GeoVar>, filter: seq<FilterEntry>)
    requires |t| == 19
    requires forall i :: 0 <= i < |t| ==> (Selected(t[i], filter) <==> i != 3 && i != 5)
    ensures SelectedDesignVars(t, filter) == DesignVarsOf(t[..3] + t[4..5] + t[6..])
  {
    var a, b, c := t[..3], t[4..5], t[6..];
    assert t == a + [t[3]] + b + [t[5]] + c;
    assert forall k :: 0 <= k < |a| ==> a[k] == t[k];
    assert forall k :: 0 <= k < |b| ==> b[k] == t[4 + k];
    assert forall k :: 0 <= k < |c| ==> c[k] == t[6 + k];
    SkipTwo(a, t[3], b, t[5], c, filter);
  }

  /** Dropping two unselected entries from between selected runs. */
  lemma SkipTwo(a: seq<GeoVar>, x: GeoVar, b: seq<GeoVar>, y: GeoVar, c: seq<GeoVar>, filter: seq<FilterEntry>)
    requires forall k :: 0 <= k < |a| ==> Selected(a[k], filter)
    requires forall k :: 0 <= k < |b| ==> Selected(b[k], filter)
    requires forall k :: 0 <= k < |c| ==> Selected(c[k], filter)
    requires !Selected(x, filter) && !Selected(y, filter)
    ensures SelectedDesignVars(a + [x] + b + [y] + c, filter) == DesignVarsOf(a + b + c)
  {
    var ab := a + [x] + b;
    assert a + [x] + b + [y] + c == ab + [y] + c;
    SkipOne(ab, y, c, filter);
    SkipOne(a, x, b, filter);
    AllSelected(a, filter);
    AllSelected(b, filter);
    AllSelected(c, filter);
    DesignVarsOfAppend(a, b, c);
  }

  lemma SkipOne(a: seq<GeoVar>, x: GeoVar, b: seq<GeoVar>, filter: seq<FilterEntry>)
    requires !Selected(x, filter)
    ensures SelectedDesignVars(a + [x] + b, filter) == SelectedDesignVars(a, filter) + SelectedDesignVars(b, filter)
  {
    SkippedContributesNothing(x, filter);
    SelectedDesignVarsAppend(a + [x], b, filter);
    SelectedDesignVarsAppend(a, [x], filter);
  }

  lemma DesignVarsOfAppend(a: seq<GeoVar>, b: seq<GeoVar>, c: seq<GeoVar>)
    ensures DesignVarsOf(a + b + c) == DesignVarsOf(a) + DesignVarsOf(b) + DesignVarsOf(c)
  {
    DesignVarsOfConcat(a + b, c);
    DesignVarsOfConcat(a, b);
  }

  lemma {:induction false} DesignVarsOfConcat(a: seq<GeoVar>, b: seq<GeoVar>)
    ensures DesignVarsOf(a + b) == DesignVarsOf(a) + DesignVarsOf(b)
    decreases |a|
  {
    if a == [] {
      assert a + b == b;
    } else {
      assert (a + b)[0] == a[0] && (a + b)[1..] == a[1..] + b;
      DesignVarsOfConcat(a[1..], b);
    }
  }

  // ---------------------------------------------------------------------------
  // The excluded diameters are the outputs of the geometry links.

  /** The key under which the geometry engine knows a parameter: `<comp>:<group>:<var>`. */
  function VspKey(v: GeoVar): string
  {
    CompName(v.comp) + ":" + GroupName(v.group) + ":" + ParamName(v.param)
  }

  /** The parameters that are not independent design variables because an explicit component sets them. */
  const LinkedKeys: seq<string> := ["Nacelle:XSecCurve_8:Circle_Diameter", "Nacelle:XSecCurve_2:Circle_Diameter"]

  lemma VspKeyInjective(v: GeoVar, w: GeoVar)
    requires VspKey(v) == VspKey(w)
    ensures Key(v) == Key(w)
  {
    var cv, gv, pv := CompName(v.comp), GroupName(v.group), ParamName(v.param);
    var cw, gw, pw := CompName(w.comp), GroupName(w.group), ParamName(w.param);
    ParamNameNoColon(v.param);
    ParamNameNoColon(w.param);
    SplitAtLastColon(cv + ":" + gv, pv, cw + ":" + gw, pw);
    GroupNameNoColon(v.group);
    GroupNameNoColon(w.group);
    SplitAtLastColon(cv, gv, cw, gw);
    CompNameInjective(v.comp, w.comp);
    GroupNameInjective(v.group, w.group);
    ParamNameInjective(v.param, w.param);
  }

  /** The key of a one-digit nacelle cross-section diameter. */
  lemma NacelleDiameterKey(v: GeoVar, n: nat)
    requires n < 10 && v.comp == Nacelle && v.group == XSecCurve(n) && v.param == CircleDiameter
    ensures VspKey(v) == "Nacelle:XSecCurve_" + [DigitChar(n)] + ":Circle_Diameter"
  {
  }

  lemma TrailingEdgeKey()
    ensures VspKey(Table[3]) == "Nacelle:XSecCurve_8:Circle_Diameter"
  {
    NacelleDiameterKey(Table[3], 8);
  }

  lemma FanFaceKey()
    ensures VspKey(Table[5]) == "Nacelle:XSecCurve_2:Circle_Diameter"
  {
    NacelleDiameterKey(Table[5], 2);
  }

  /** The linked keys name the outer trailing-edge diameter and the fan-face diameter. */
  lemma LinkedKeysAreLinkOutputs()
    ensures LinkedKeys == [VspKey(Table[3]), VspKey(Table[5])]
  {
    TrailingEdgeKey();
    FanFaceKey();
  }

  /**
   * A table entry is left out by the driver's filter exactly when its key is
   * one of the linked keys: the filter and the link wiring agree.
   */
  lemma ExcludedAreLinked()
    ensures forall i :: 0 <= i < |Table| ==> (!Selected(Table[i], GeoDvFilter) <==> VspKey(Table[i]) in LinkedKeys)
  {
    DriverSelectsTableRows();
    forall i | 0 <= i < |Table| ensures VspKey(Table[i]) in LinkedKeys <==> i == 3 || i == 5 {
      LinkedRows(i);
    }
  }

  /** Only rows 3 and 5 of the table carry a linked key. */
  lemma LinkedRows(i: nat)
    requires i < |Table|
    ensures VspKey(Table[i]) in LinkedKeys <==> i == 3 || i == 5
  {
    LinkedKeysAreLinkOutputs();
    TableKeysDistinct();
    if VspKey(Table[i]) == VspKey(Table[3]) {
      VspKeyInjective(Table[i], Table[3]);
    }
    if VspKey(Table[i]) == VspKey(Table[5]) {
      VspKeyInjective(Table[i], Table[5]);
    }
  }

  /** The parameters the geometry links read, as the driver's design variables: the inner trailing-edge and fan-exit diameters. */
  const LinkInputKeys: seq<string> := ["Nacelle:XSecCurve_0:Circle_Diameter", "Nacelle:XSecCurve_1:Circle_Diameter"]

  lemma InnerTrailingEdgeKey()
    ensures VspKey(Table[2]) == "Nacelle:XSecCurve_0:Circle_Diameter"
  {
    NacelleDiameterKey(Table[2], 0);
  }

  lemma FanExitKey()
    ensures VspKey(Table[4]) == "Nacelle:XSecCurve_1:Circle_Diameter"
  {
    NacelleDiameterKey(Table[4], 1);
  }

  /**
   * The inputs of the geometry links are themselves design variables chosen
   * by the driver's filter, so every linked diameter follows from a free one.
   */
  lemma LinkInputsSelected()
    ensures LinkInputKeys == [VspKey(Table[2]), VspKey(Table[4])]
    ensures Selected(Table[2], GeoDvFilter) && Selected(Table[4], GeoDvFilter)
  {
    InnerTrailingEdgeKey();
    FanExitKey();
    DriverSelectsTableRows();
  }

  // ---------------------------------------------------------------------------
  // The connections made around the geometry links.

  /** A connected variable: the subsystem it belongs to and its name there (`<system>.<name>`). */
  datatype Endpoint = Endpoint(system: string, name: string)

  /** A connection from a source variable to a target input. */
  datatype Connection = Connection(source: Endpoint, target: Endpoint)

  /** Each link input is fed from a design variable. */
  const LinkInputConnections: seq<Connection> := [
    Connection(Endpoint("geo_dvs", "Nacelle:XSecCurve_0:Circle_Diameter"), Endpoint("geo_link", "XSecCurve_0")),
    Connection(Endpoint("geo_dvs", "Nacelle:XSecCurve_1:Circle_Diameter"), Endpoint("geo_link", "XSecCurve_1"))
  ]

  /** Each link output drives a geometry parameter. */
  const LinkOutputConnections: seq<Connection> := [
    Connection(Endpoint("geo_link", "XSecCurve_8"), Endpoint("geo", "Nacelle:XSecCurve_8:Circle_Diameter")),
    Connection(Endpoint("geo_link", "XSecCurve_2"), Endpoint("geo", "Nacelle:XSecCurve_2:Circle_Diameter"))
  ]

  /** A design-variable name is the geometry key behind the `geo_dvs.` prefix. */
  lemma DvNameIsPrefixedKey(v: GeoVar)
    ensures DvName(v) == "geo_dvs." + VspKey(v)
  {
    var pre, c, g, p := "geo_dvs.", CompName(v.comp), GroupName(v.group), ParamName(v.param);
    var k1 := c + ":";
    var k2 := k1 + g;
    var k3 := k2 + ":";
    SeqAssoc(pre, c, ":");
    SeqAssoc(pre, k1, g);
    SeqAssoc(pre, k2, ":");
    SeqAssoc(pre, k3, p);
  }

  /** The name of a one-digit shape group. */
  lemma OneDigitCurveName(n: nat)
    requires n < 10
    ensures GroupName(XSecCurve(n)) == "XSecCurve_" + [DigitChar(n)]
  {
  }

  /**
   * The geometry parameters the link outputs drive are exactly the keys left
   * out of the independent design variables, in the same order.
   */
  lemma LinkOutputsDriveLinkedKeys()
    ensures |LinkOutputConnections| == |LinkedKeys|
    ensures forall i :: 0 <= i < |LinkedKeys| ==> LinkOutputConnections[i].target == Endpoint("geo", LinkedKeys[i])
  {
  }

  /**
   * Each driven parameter is driven from the link variable named after its
   * cross-section group: `XSecCurve_8` (table row 3) and `XSecCurve_2` (row 5).
   */
  lemma LinkOutputSources()
    ensures LinkOutputConnections[0].source == Endpoint("geo_link", GeoComps.TeLinkOutputName)
    ensures LinkOutputConnections[1].source == Endpoint("geo_link", GeoComps.FanLinkOutputName)
    ensures GeoComps.TeLinkOutputName == GroupName(Table[3].group)
    ensures GeoComps.FanLinkOutputName == GroupName(Table[5].group)
  {
    OneDigitCurveName(8);
    OneDigitCurveName(2);
  }

  /**
   * The link inputs are fed from the design variables of table rows 2 and 4
   * (`geo_dvs.<key>` is the design-variable name), into the link variables
   * named after their groups.
   */
  lemma LinkInputsFromDesignVars()
    ensures LinkInputConnections[0].source == Endpoint("geo_dvs", VspKey(Table[2]))
    ensures LinkInputConnections[1].source == Endpoint("geo_dvs", VspKey(Table[4]))
    ensures LinkInputConnections[0].target == Endpoint("geo_link", GeoComps.TeLinkInputName)
    ensures LinkInputConnections[1].target == Endpoint("geo_link", GeoComps.FanLinkInputName)
    ensures GeoComps.TeLinkInputName == GroupName(Table[2].group)
    ensures GeoComps.FanLinkInputName == GroupName(Table[4].group)
  {
    InnerTrailingEdgeKey();
    FanExitKey();
    OneDigitCurveName(0);
    OneDigitCurveName(1);
  }

  /** Positions 2 and 3 of the rows the driver keeps are table rows 2 and 4. */
  lemma KeptRows(t: seq<GeoVar>)
    requires |t| == 19
    ensures DesignVarsOf(t[..3] + t[4..5] + t[6..])[2] == ToDesignVar(t[2])
    ensures DesignVarsOf(t[..3] + t[4..5] + t[6..])[3] == ToDesignVar(t[4])
  {
    var kept := t[..3] + t[4..5] + t[6..];
    assert kept[2] == t[2] && kept[3] == t[4];
  }

  /** The driver registers those two design variables, third and fourth. */
  lemma LinkInputsRegistered()
    ensures |Registrations(Table, GeoDvFilter)| == 17
    ensures Registrations(Table, GeoDvFilter)[2] == ToDesignVar(Table[2])
    ensures Registrations(Table, GeoDvFilter)[3] == ToDesignVar(Table[4])
  {
    DriverRegistrations();
    TableSize();
    KeptRows(Table);
  }
}
