/**
 * Registration of geometric design variables: every table entry whose
 * component is a key of the filter, and whose group is listed under that key,
 * is added to the optimisation model under the name
 * `geo_dvs.<comp>:<group>:<var>` with the entry's bounds and scaling reference.
 */
module AddGeoDvs {
  import opened GeoVars

  /** A design variable as the optimisation model records it. */
  datatype DesignVar = DesignVar(name: string, lower: real, upper: real, ref: real)

  /** One key of the filter dictionary with the list of group names stored under it. */
  datatype FilterEntry = FilterEntry(key: string, groups: seq<string>)

  /** The keys of a dictionary are distinct; a filter is its entries in key order. */
  predicate DistinctKeys(filter: seq<FilterEntry>)
  {
    forall i, j :: 0 <= i < j < |filter| ==> filter[i].key != filter[j].key
  }

  /** The design-variable name of a CAD parameter. */
  function DvName(v: GeoVar): string
  {
    "geo_dvs." + CompName(v.comp) + ":" + GroupName(v.group) + ":" + ParamName(v.param)
  }

  /** The registration of `v`: its name with its bounds and reference passed through. */
  function ToDesignVar(v: GeoVar): DesignVar
  {
    DesignVar(DvName(v), v.lower, v.upper, v.ref)
  }

  /** The test applied to one variable and one filter key. */
  predicate Matches(v: GeoVar, e: FilterEntry)
  {
    CompName(v.comp) == e.key && GroupName(v.group) in e.groups
  }

  /** `v` is selected when some key of the filter matches it. */
  predicate Selected(v: GeoVar, filter: seq<FilterEntry>)
  {
    exists i :: 0 <= i < |filter| && Matches(v, filter[i])
  }

  /** What the inner loop over the filter keys registers for `v`. */
  function ForVar(v: GeoVar, filter: seq<FilterEntry>): seq<DesignVar>
  {
    if filter == [] then []
    else
      var n := |filter| - 1;
      ForVar(v, filter[..n]) + (if Matches(v, filter[n]) then [ToDesignVar(v)] else [])
  }

  /** What the outer loop over `vars` registers, in order. */
  function Registrations(vars: seq<GeoVar>, filter: seq<FilterEntry>): seq<DesignVar>
  {
    if vars == [] then []
    else
      var n := |vars| - 1;
      Registrations(vars[..n], filter) + ForVar(vars[n], filter)
  }

  /** The registration of `v`, once, if the filter selects it. */
  function OnceIfSelected(v: GeoVar, filter: seq<FilterEntry>): seq<DesignVar>
  {
    if Selected(v, filter) then [ToDesignVar(v)] else []
  }

  /**
   * The intended outcome, stated without the inner loop: every selected
   * variable once, in the order of `vars`.
   */
  function SelectedDesignVars(vars: seq<GeoVar>, filter: seq<FilterEntry>): seq<DesignVar>
  {
    if vars == [] then []
    else
      OnceIfSelected(vars[0], filter) + SelectedDesignVars(vars[1..], filter)
  }

  /** Stand-in for the optimisation model: the design variables added so far, in order. */
  class Model {
    var designVars: seq<DesignVar>

    constructor ()
      ensures designVars == []
    {
      designVars := [];
    }

    method AddDesignVar(name: string, lower: real, upper: real, ref: real)
      modifies this
      ensures designVars == old(designVars) + [DesignVar(name, lower, upper, ref)]
    {
      designVars := designVars + [DesignVar(name, lower, upper, ref)];
    }
  }

  /** Registers on `model` every variable of `vars` that `filter` selects. */
  method AddGeoDvsTo(model: Model, vars: seq<GeoVar>, filter: seq<FilterEntry>)
    modifies model
    ensures model.designVars == old(model.designVars) + Registrations(vars, filter)
  {
    var i := 0;
    while i < |vars|
      invariant 0 <= i <= |vars|
      invariant model.designVars == old(model.designVars) + Registrations(vars[..i], filter)
    {
      RegisterVar(model, vars[i], filter);
      assert vars[..i + 1][..i] == vars[..i];
      i := i + 1;
    }
    assert vars[..i] == vars;
  }

  /** The body of the outer loop: one variable matched against every key of the filter. */
  method RegisterVar(model: Model, v: GeoVar, filter: seq<FilterEntry>)
    modifies model
    ensures model.designVars == old(model.designVars) + ForVar(v, filter)
  {
    var dvName := DvName(v);
    var k := 0;
    while k < |filter|
      invariant 0 <= k <= |filter|
      invariant model.designVars == old(model.designVars) + ForVar(v, filter[..k])
    {
      if Matches(v, filter[k]) {
        model.AddDesignVar(dvName, v.lower, v.upper, v.ref);
      }
      assert filter[..k + 1][..k] == filter[..k];
      k := k + 1;
    }
    assert filter[..k] == filter;
  }

  // ---------------------------------------------------------------------------
  // Properties of the registrations.

  /** A variable is registered by the inner loop exactly when it is selected. */
  lemma {:induction false} ForVarMembers(v: GeoVar, filter: seq<FilterEntry>, d: DesignVar)
    ensures d in ForVar(v, filter) <==> Selected(v, filter) && d == ToDesignVar(v)
  {
    if filter != [] {
      var n := |filter| - 1;
      ForVarMembers(v, filter[..n], d);
      if Selected(v, filter) && !Selected(v, filter[..n]) {
        var i :| 0 <= i < |filter| && Matches(v, filter[i]);
      }
      if Selected(v, filter[..n]) {
        var i :| 0 <= i < n && Matches(v, filter[..n][i]);
        assert filter[i] == filter[..n][i];
      }
    }
  }

  /**
   * With distinct keys only one key can equal the component, so the inner
   * loop registers `v` once if it is selected and not at all otherwise.
   */
  lemma {:induction false} ForVarAtMostOnce(v: GeoVar, filter: seq<FilterEntry>)
    requires DistinctKeys(filter)
    ensures ForVar(v, filter) == OnceIfSelected(v, filter)
  {
    if filter != [] {
      var n := |filter| - 1;
      var prefix := filter[..n];
      assert DistinctKeys(prefix) by {
        forall i, j | 0 <= i < j < |prefix| ensures prefix[i].key != prefix[j].key {
          assert prefix[i] == filter[i] && prefix[j] == filter[j];
        }
      }
      ForVarAtMostOnce(v, prefix);
      if Selected(v, prefix) {
        var i :| 0 <= i < |prefix| && Matches(v, prefix[i]);
        assert filter[i] == prefix[i];
        assert !Matches(v, filter[n]);
      }
      if Matches(v, filter[n]) {
        assert Selected(v, filter);
      } else if Selected(v, filter) {
        var i :| 0 <= i < |filter| && Matches(v, filter[i]);
        assert i < n && prefix[i] == filter[i];
      }
    }
  }

  /**
   * The test never looks at the parameter name: two parameters of the same
   * component and group (an ellipse's height and width, say) are registered
   * alike, by the same number of keys.
   */
  lemma {:induction false} MatchingIgnoresParam(v: GeoVar, w: GeoVar, filter: seq<FilterEntry>)
    requires v.comp == w.comp && v.group == w.group
    ensures |ForVar(v, filter)| == |ForVar(w, filter)|
    ensures Selected(v, filter) <==> Selected(w, filter)
  {
    if filter != [] {
      MatchingIgnoresParam(v, w, filter[..|filter| - 1]);
    }
  }

  /** Registering `a + b` registers `a`, then `b`: registrations follow the order of `vars`. */
  lemma {:induction false} RegistrationsAppend(a: seq<GeoVar>, b: seq<GeoVar>, filter: seq<FilterEntry>)
    ensures Registrations(a + b, filter) == Registrations(a, filter) + Registrations(b, filter)
    decreases |b|
  {
    if b == [] {
      assert a + b == a;
    } else {
      var n := |b| - 1;
      var ab := a + b;
      assert ab[..|ab| - 1] == a + b[..n];
      assert ab[|ab| - 1] == b[n];
      var last := ForVar(b[n], filter);
      assert Registrations(ab, filter) == Registrations(a + b[..n], filter) + last;
      RegistrationsAppend(a, b[..n], filter);
      assert Registrations(b, filter) == Registrations(b[..n], filter) + last;
      SeqAssoc(Registrations(a, filter), Registrations(b[..n], filter), last);
    }
  }

  lemma SeqAssoc<T>(x: seq<T>, y: seq<T>, z: seq<T>)
    ensures (x + y) + z == x + (y + z)
  {
  }

  /** With a proper (distinct-keyed) filter the registrations are exactly the selected variables, in order. */
  lemma {:induction false} RegistrationsAreSelected(vars: seq<GeoVar>, filter: seq<FilterEntry>)
    requires DistinctKeys(filter)
    ensures Registrations(vars, filter) == SelectedDesignVars(vars, filter)
    decreases |vars|
  {
    if vars != [] {
      var rest := vars[1..];
      assert vars == [vars[0]] + rest;
      RegistrationsAppend([vars[0]], rest, filter);
      assert [vars[0]][..0] == [];
      ForVarAtMostOnce(vars[0], filter);
      RegistrationsAreSelected(rest, filter);
    }
  }

  /** An empty filter registers nothing, whatever `vars` holds. */
  lemma {:induction false} EmptyFilterRegistersNothing(vars: seq<GeoVar>)
    ensures Registrations(vars, []) == []
    decreases |vars|
  {
    if vars != [] {
      EmptyFilterRegistersNothing(vars[..|vars| - 1]);
    }
  }

  /** A registered design variable is the pass-through registration of a selected entry of `vars`, and conversely. */
  lemma RegisteredIff(vars: seq<GeoVar>, filter: seq<FilterEntry>, d: DesignVar)
    ensures d in Registrations(vars, filter)
            <==> exists i :: 0 <= i < |vars| && Selected(vars[i], filter) && d == ToDesignVar(vars[i])
  {
    if d in Registrations(vars, filter) {
      RegisteredAreSelected(vars, filter, d);
    }
    if exists i :: 0 <= i < |vars| && Selected(vars[i], filter) && d == ToDesignVar(vars[i]) {
      var i :| 0 <= i < |vars| && Selected(vars[i], filter) && d == ToDesignVar(vars[i]);
      SelectedAreRegistered(vars, filter, i);
    }
  }

  lemma {:induction false} RegisteredAreSelected(vars: seq<GeoVar>, filter: seq<FilterEntry>, d: DesignVar)
    requires d in Registrations(vars, filter)
    ensures exists i :: 0 <= i < |vars| && Selected(vars[i], filter) && d == ToDesignVar(vars[i])
    decreases |vars|
  {
    var n := |vars| - 1;
    var prefix := vars[..n];
    if d in Registrations(prefix, filter) {
      RegisteredAreSelected(prefix, filter, d);
      var i :| 0 <= i < |prefix| && Selected(prefix[i], filter) && d == ToDesignVar(prefix[i]);
      assert vars[i] == prefix[i];
    } else {
      ForVarMembers(vars[n], filter, d);
    }
  }

  lemma {:induction false} SelectedAreRegistered(vars: seq<GeoVar>, filter: seq<FilterEntry>, i: nat)
    requires i < |vars| && Selected(vars[i], filter)
    ensures ToDesignVar(vars[i]) in Registrations(vars, filter)
    decreases |vars|
  {
    var n := |vars| - 1;
    var prefix := vars[..n];
    var d := ToDesignVar(vars[i]);
    assert Registrations(vars, filter) == Registrations(prefix, filter) + ForVar(vars[n], filter);
    if i < n {
      assert prefix[i] == vars[i];
      SelectedAreRegistered(prefix, filter, i);
      assert d in Registrations(prefix, filter);
    } else {
      ForVarMembers(vars[n], filter, d);
      assert d in ForVar(vars[n], filter);
    }
  }

  // ---------------------------------------------------------------------------
  // The name format determines the parameter.

  /** The text after the last ':' (all of `s` when it has none). */
  function AfterLastColon(s: string): string
  {
    if s == [] then []
    else if s[|s| - 1] == ':' then []
    else AfterLastColon(s[..|s| - 1]) + [s[|s| - 1]]
  }

  lemma {:induction false} AfterLastColonOf(a: string, b: string)
    requires ':' !in b
    ensures AfterLastColon(a + ":" + b) == b
    decreases |b|
  {
    var s := a + ":" + b;
    if b != [] {
      var n := |b| - 1;
      assert s[..|s| - 1] == a + ":" + b[..n];
      assert s[|s| - 1] == b[n];
      AfterLastColonOf(a, b[..n]);
      assert b == b[..n] + [b[n]];
    }
  }

  /** Text split at its last ':' determines both sides. */
  lemma SplitAtLastColon(a: string, b: string, c: string, d: string)
    requires ':' !in b && ':' !in d
    requires a + ":" + b == c + ":" + d
    ensures a == c && b == d
  {
    var s := a + ":" + b;
    AfterLastColonOf(a, b);
    AfterLastColonOf(c, d);
    assert a == s[..|s| - |b| - 1] == c;
  }

  /** Two CAD parameters with the same design-variable name are the same parameter. */
  lemma DvNameInjective(v: GeoVar, w: GeoVar)
    requires DvName(v) == DvName(w)
    ensures Key(v) == Key(w)
  {
    var pre := "geo_dvs.";
    var cv, gv, pv := CompName(v.comp), GroupName(v.group), ParamName(v.param);
    var cw, gw, pw := CompName(w.comp), GroupName(w.group), ParamName(w.param);
    ParamNameNoColon(v.param);
    ParamNameNoColon(w.param);
    SplitAtLastColon(pre + cv + ":" + gv, pv, pre + cw + ":" + gw, pw);
    GroupNameNoColon(v.group);
    GroupNameNoColon(w.group);
    SplitAtLastColon(pre + cv, gv, pre + cw, gw);
    assert cv == (pre + cv)[|pre|..] == (pre + cw)[|pre|..] == cw;
    CompNameInjective(v.comp, w.comp);
    GroupNameInjective(v.group, w.group);
    ParamNameInjective(v.param, w.param);
  }

  lemma DistinctKeysDistinctNames(v: GeoVar, w: GeoVar)
    requires Key(v) != Key(w)
    ensures ToDesignVar(v).name != ToDesignVar(w).name
  {
    if DvName(v) == DvName(w) {
      DvNameInjective(v, w);
    }
  }

  /** The intended registrations never repeat a name when `vars` never repeats a parameter. */
  lemma {:induction false} SelectedNamesDistinct(vars: seq<GeoVar>, filter: seq<FilterEntry>)
    requires forall i, j :: 0 <= i < j < |vars| ==> Key(vars[i]) != Key(vars[j])
    ensures forall i, j :: 0 <= i < j < |SelectedDesignVars(vars, filter)| ==>
              SelectedDesignVars(vars, filter)[i].name != SelectedDesignVars(vars, filter)[j].name
    decreases |vars|
  {
    if vars != [] {
      var rest := vars[1..];
      SelectedNamesDistinct(rest, filter);
      var head := OnceIfSelected(vars[0], filter);
      var tail := SelectedDesignVars(rest, filter);
      var all := SelectedDesignVars(vars, filter);
      assert all == head + tail;
      forall i, j | 0 <= i < j < |all| ensures all[i].name != all[j].name {
        if i >= |head| {
          TailPairDistinct(head, tail, i, j);
        } else {
          assert all[i] == ToDesignVar(vars[0]) && all[j] == tail[j - |head|];
          HeadNameNotRepeated(vars, filter, all[j]);
        }
      }
    }
  }

  lemma TailPairDistinct(head: seq<DesignVar>, tail: seq<DesignVar>, i: nat, j: nat)
    requires forall i, j :: 0 <= i < j < |tail| ==> tail[i].name != tail[j].name
    requires |head| <= i < j < |head| + |tail|
    ensures (head + tail)[i].name != (head + tail)[j].name
  {
    assert (head + tail)[i] == tail[i - |head|];
    assert (head + tail)[j] == tail[j - |head|];
  }

  lemma HeadNameNotRepeated(vars: seq<GeoVar>, filter: seq<FilterEntry>, d: DesignVar)
    requires |vars| > 0
    requires forall i, j :: 0 <= i < j < |vars| ==> Key(vars[i]) != Key(vars[j])
    requires d in SelectedDesignVars(vars[1..], filter)
    ensures d.name != ToDesignVar(vars[0]).name
  {
    SelectedMembers(vars[1..], filter, d);
    var k :| 0 <= k < |vars| - 1 && d == ToDesignVar(vars[1..][k]);
    var w := vars[k + 1];
    assert vars[1..][k] == w;
    assert Key(vars[0]) != Key(w);
    DistinctKeysDistinctNames(vars[0], w);
  }

  lemma {:induction false} SelectedMembers(vars: seq<GeoVar>, filter: seq<FilterEntry>, d: DesignVar)
    requires d in SelectedDesignVars(vars, filter)
    ensures exists k :: 0 <= k < |vars| && Selected(vars[k], filter) && d == ToDesignVar(vars[k])
    decreases |vars|
  {
    if d !in OnceIfSelected(vars[0], filter) {
      SelectedMembers(vars[1..], filter, d);
      var k :| 0 <= k < |vars| - 1 && Selected(vars[1..][k], filter) && d == ToDesignVar(vars[1..][k]);
      assert vars[1..][k] == vars[k + 1];
    }
  }

  /**
   * With a proper filter and no parameter listed twice in `vars`, no name is
   * registered twice, so the model never sees a duplicate design variable.
   */
  lemma RegisteredNamesDistinct(vars: seq<GeoVar>, filter: seq<FilterEntry>)
    requires DistinctKeys(filter)
    requires forall i, j :: 0 <= i < j < |vars| ==> Key(vars[i]) != Key(vars[j])
    ensures forall i, j :: 0 <= i < j < |Registrations(vars, filter)| ==>
              Registrations(vars, filter)[i].name != Registrations(vars, filter)[j].name
  {
    RegistrationsAreSelected(vars, filter);
    SelectedNamesDistinct(vars, filter);
  }
}
