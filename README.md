# aeroprop: geometric design variables and coupling components

This project models the parts of the aeroprop nacelle-optimisation code that
are its own logic rather than calls into CFD, cycle or geometry libraries. It
covers two things.

1. **How geometric design variables are chosen.** This covers:
   - the constant table of OpenVSP parameters (`geo_vars`);
   - `add_geo_dvs`, which registers each table entry whose component is a
     filter key and whose group is listed under that key;
   - the design-variable name `geo_dvs.<comp>:<group>:<var>`;
   - the filter the optimisation driver builds. With that filter, 17 of the
     19 entries are registered. The two left out are exactly the keys that
     model assembly excludes and connects to the geometry links' outputs.

   `add_geo_dvs` is modelled imperatively. A `Model` class holds the
   design-variable list. `AddGeoDvsTo` and `RegisterVar` are its nested
   loops, and they are proved against the specification function
   `Registrations`. The properties are then proved about that function.

2. **The closed-form OpenMDAO components.** These are:
   - half-body to full-body scaling (`FullBody`);
   - the geometry links (`TELink`, `FanLink`, `GeoLink`);
   - net thrust and total power;
   - the fan pressure ratio and fan performance;
   - the boundary-condition residuals (`BCStaticsConservation`,
     `BCEnergyConservation`).

   Each `compute` is a function over `real`. Each declared Jacobian is
   modelled as its constants or formulas, or as the set of inputs each output
   is declared to depend on. Lemmas tie the declarations to the formulas:
   - a constant or hand-written partial is the exact slope of its output;
   - a declared dependency set is exactly the set of inputs the formula uses.
     It misses no dependency, and every input in it changes the output.

Each source file is one module: `GeoVars`, `AddGeoDvs`, `GeoComps`,
`FullBody`, `PropulsionGroup`, `Fan` and `BcCoupling`. `AeropropRun` holds the
driver's filter and the list of linked keys that model assembly excludes.

## Model

| member | source | states |
|---|---|---|
| GeoVars.TableSize | run/geometry/geo_vars.py:13-58 | The table has 19 entries. The commented-out entry is not one of them. |
| GeoVars.TableEntriesWellFormed | run/geometry/geo_vars.py:18-57 | Every entry satisfies four conditions: `lower < upper`, `ref == 1.0`, `dh == 1e-6`, and its parameter fits its group (`XSecCurve_*` carries a diameter or ellipse axis, `XSec_*` carries `TopLAngle`). |
| GeoVars.TableKeysDistinct | run/geometry/geo_vars.py:18-57 | No (component, group, parameter) triple appears twice. |
| GeoVars.NoNacelleLeadingEdgeAngle | run/geometry/geo_vars.py:49-51 | No entry is the nacelle `XSec_4` angle, which is disabled. |
| GeoVars.DiameterBounds | run/geometry/geo_vars.py:18-42 | Nacelle diameters and ellipse axes have bounds [30, 150]. The core plug diameter has bounds [15, 60]. |
| GeoVars.DecimalString | run/aeroprop_run.py:188-189 | The decimal text of a group number that the f-string writes is non-empty. |
| GeoVars.DecimalStringInjective | run/aeroprop_run.py:188-189 | Different numbers give different decimal text. |
| GeoVars.GroupNameNoColon | run/geometry/geo_vars.py:18-57 | A group name contains no `:`. |
| GeoVars.GroupNameInjective | run/geometry/geo_vars.py:18-57 | Different groups have different names, including different families with the same number. |
| GeoVars.CompNameInjective | run/geometry/geo_vars.py:5-6 | The two component names differ. |
| GeoVars.ParamNameInjective | run/geometry/geo_vars.py:18-57 | Different parameters have different names. |
| AddGeoDvs.Model.constructor | run/utils/add_geo_dvs.py:1 | A fresh model has no design variables. |
| AddGeoDvs.Model.AddDesignVar | run/utils/add_geo_dvs.py:19 | Appends exactly one design variable with the given name, bounds and reference. Nothing else changes. |
| AddGeoDvs.AddGeoDvsTo | run/utils/add_geo_dvs.py:15-19 | The outer loop leaves the model's list as the old list followed by `Registrations(vars, filter)`. |
| AddGeoDvs.RegisterVar | run/utils/add_geo_dvs.py:16-19 | The inner loop over the filter keys appends `ForVar(v, filter)`: one registration per matching key. |
| AddGeoDvs.ForVarMembers | run/utils/add_geo_dvs.py:17-19 | The inner loop registers `d` exactly when some key matches `v` and `d` is `v`'s name with its own `lower`, `upper` and `ref`. |
| AddGeoDvs.ForVarAtMostOnce | run/utils/add_geo_dvs.py:17-18 | With distinct dictionary keys, the inner loop registers a selected variable exactly once and any other variable not at all. |
| AddGeoDvs.MatchingIgnoresParam | run/utils/add_geo_dvs.py:18 | Two entries with the same component and group are registered equally often. For example, an ellipse's height and width are always chosen together. |
| AddGeoDvs.RegistrationsAppend | run/utils/add_geo_dvs.py:15 | Registering `a + b` registers `a` and then `b`, so registrations follow the order of `vars`. |
| AddGeoDvs.RegistrationsAreSelected | run/utils/add_geo_dvs.py:15-19 | With distinct keys, the registrations equal the independent definition `SelectedDesignVars`: every selected entry once, in table order. |
| AddGeoDvs.EmptyFilterRegistersNothing | run/utils/add_geo_dvs.py:17 | An empty filter registers nothing, for any `vars`. |
| AddGeoDvs.RegisteredIff | run/utils/add_geo_dvs.py:15-19 | A design variable is registered exactly when it is the pass-through registration of an entry that some key matches. Both directions are proved. |
| AddGeoDvs.RegisteredAreSelected | run/utils/add_geo_dvs.py:17-19 | Every registration comes from a selected entry of `vars`. |
| AddGeoDvs.SelectedAreRegistered | run/utils/add_geo_dvs.py:17-19 | Every selected entry is registered. |
| AddGeoDvs.AfterLastColonOf | run/utils/add_geo_dvs.py:16 | The text after the last `:` of `a:b` is `b` when `b` has no colon. |
| AddGeoDvs.SplitAtLastColon | run/utils/add_geo_dvs.py:16 | A colon-free last field determines both parts of a `:`-joined name. |
| AddGeoDvs.DvNameInjective | run/utils/add_geo_dvs.py:16 | The name `geo_dvs.<comp>:<group>:<var>` determines the component, the group and the parameter. |
| AddGeoDvs.DistinctKeysDistinctNames | run/utils/add_geo_dvs.py:16 | Different parameters get different design-variable names. |
| AddGeoDvs.SelectedNamesDistinct | run/utils/add_geo_dvs.py:15-19 | If `vars` lists no parameter twice, no name repeats among the selected registrations. |
| AddGeoDvs.SelectedMembers | run/utils/add_geo_dvs.py:15-19 | Every member of the intended registrations is a selected entry. |
| AddGeoDvs.RegisteredNamesDistinct | run/utils/add_geo_dvs.py:15-19 | Given distinct keys and no repeated parameter, the model is never asked to add the same name twice. |
| AeropropRun.CurveGroupNames | run/aeroprop_run.py:188-189 | The `XSecCurve_{i}` comprehension gives, position by position, the group name of each number. |
| AeropropRun.AngleGroupNames | run/aeroprop_run.py:188-189 | The `XSec_{i}` comprehension does the same for angle groups. |
| AeropropRun.GroupListed | run/aeroprop_run.py:180-190 | A group's name is in a key's list exactly when its family and number are in the driver's lists. |
| AeropropRun.DriverFilterSelects | run/aeroprop_run.py:180-190 | The driver's filter selects an entry exactly when its component's lists contain its group number, in the list of its family. |
| AeropropRun.DriverFilterKeysDistinct | run/aeroprop_run.py:187-190 | The filter's two keys differ. |
| AeropropRun.DriverSelectsTableRows | run/aeroprop_run.py:180-193 | The filter selects every table row except rows 3 and 5 (Nacelle `XSecCurve_8` and `XSecCurve_2`). |
| AeropropRun.DriverRegistrations | run/aeroprop_run.py:180-193 | Running the registration on the table with that filter registers rows 0-2, 4 and 6-18, in order, with their own bounds and references. That is 17 design variables. |
| AeropropRun.DesignVarsOf | run/utils/add_geo_dvs.py:19 | Position `k` of the result is the registration of entry `k`: its name, with its own bounds and reference. |
| AeropropRun.SelectedDesignVarsAppend | run/utils/add_geo_dvs.py:15 | The intended registrations of `a + b` are those of `a` followed by those of `b`. |
| AeropropRun.AllSelected | run/utils/add_geo_dvs.py:17-19 | When every entry is selected, every entry is registered, in order. |
| AeropropRun.SkipOne | run/utils/add_geo_dvs.py:17-19 | An unselected entry contributes nothing to the registrations. |
| AeropropRun.VspKeyInjective | run/aeroprop_mda.py:494-498 | The geometry key `<comp>:<group>:<var>` determines the parameter. |
| AeropropRun.LinkedKeysAreLinkOutputs | run/aeroprop_mda.py:496 | The two keys that assembly excludes are those of table rows 3 and 5 (Nacelle `XSecCurve_8` and `XSecCurve_2` diameters). |
| AeropropRun.LinkOutputsDriveLinkedKeys | run/aeroprop_mda.py:496-504 | The geometry inputs that the two link outputs are connected to are exactly the excluded keys, in the same order. |
| AeropropRun.LinkOutputSources | run/aeroprop_mda.py:503-504 | Those connections come from the link variables `XSecCurve_8` and `XSecCurve_2` (the names `TELink` and `FanLink` give their outputs), which are the group names of table rows 3 and 5. |
| AeropropRun.LinkInputsFromDesignVars | run/aeroprop_mda.py:501-502 | The link inputs `XSecCurve_0` and `XSecCurve_1` (the links' input names) are fed from the `geo_dvs` variables whose keys are those of table rows 2 and 4. |
| AeropropRun.DvNameIsPrefixedKey | run/aeroprop_mda.py:494-498 | A design-variable name is `geo_dvs.` followed by the geometry key, the name under which assembly connects it. |
| AeropropRun.LinkInputsRegistered | run/aeroprop_run.py:180-193 | The driver's call registers 17 design variables, and the third and fourth are the registrations of table rows 2 and 4, the link inputs. |
| AeropropRun.DriverNamesDistinct | run/aeroprop_run.py:193 | The driver's own call never asks the model to add a design-variable name twice. |
| AeropropRun.ExcludedAreLinked | run/aeroprop_mda.py:496 | A table entry is left out by the driver's filter exactly when its key is one of the excluded, linked keys. |
| AeropropRun.LinkedRows | run/aeroprop_mda.py:496 | Only rows 3 and 5 carry an excluded key. |
| AeropropRun.LinkInputsSelected | run/aeroprop_mda.py:501-502 | The link inputs `XSecCurve_0` and `XSecCurve_1` are table rows 2 and 4, and the driver's filter selects both. |
| GeoComps.TeLink | run/geometry/geo_comps.py:13-14 | The outer trailing-edge diameter minus the 0.2 offset is the inner diameter (`XSecCurve_8 == XSecCurve_0 + 0.2`), so the outer one is strictly larger. |
| GeoComps.TeLinkSlope | run/geometry/geo_comps.py:11-14 | The declared partial 1.0 is the exact slope of `XSecCurve_0 + 0.2`. |
| GeoComps.FanLinkSlope | run/geometry/geo_comps.py:23-26 | The declared partial 1.0 is the exact slope of the fan link. |
| GeoComps.FanLink | run/geometry/geo_comps.py:25-26 | The fan-face diameter `XSecCurve_2` equals the fan-exit diameter `XSecCurve_1`. |
| GeoComps.GeoLink | run/geometry/geo_comps.py:28-31 | The group's outer trailing edge minus 0.2 is its inner trailing edge (so it is strictly larger), and its fan face equals its fan exit. |
| GeoComps.GeoLinkIndependent | run/geometry/geo_comps.py:28-31 | Each link output is determined by its own link's input alone. |
| FullBody.WithInput | run/propulsion/full_body.py:7-17 | Setting one input leaves the other four unchanged. |
| FullBody.Compute | run/propulsion/full_body.py:35-40 | Halving every output, and negating the fan-face mass flow, recovers the half-body input (round trip). Positive half areas give positive areas. A positive half-body face flow gives a negative full-body face flow. |
| FullBody.DeclaredPartialsExact | run/propulsion/full_body.py:27-40 | For every output and input, the change of the output is the declared constant (-2.0 or 2.0) times the step when the input is the declared one. It is zero for any other input. |
| FullBody.ComputeInjective | run/propulsion/full_body.py:36-40 | Different half-body states give different full-body states. |
| FullBody.ZeroInZeroOut | run/propulsion/full_body.py:36-40 | Zero inputs give zero outputs. |
| PropulsionGroup.NetThrust | run/propulsion/propulsion_group.py:135-136 | `Fn + half_drag == half_fan_thrust`, and `Fn == half_fan_thrust` exactly when the drag is zero. |
| PropulsionGroup.NetThrustPartialsExact | run/propulsion/propulsion_group.py:136-140 | The partials +1 (thrust) and -1 (drag) are the exact slopes. |
| PropulsionGroup.NetThrustDecreasesWithDrag | run/propulsion/propulsion_group.py:136 | More drag gives strictly less net thrust. |
| PropulsionGroup.TotalPower | run/propulsion/propulsion_group.py:165-167 | The total shaft power exceeds the fan power by the heat loss, and twice the half heat loss is the heat loss. |
| PropulsionGroup.TotalPowerPartial | run/propulsion/propulsion_group.py:161-172 | The pair of half heat loss and fan power, which is not declared, has partial zero. |
| PropulsionGroup.TotalPowerPartialsExact | run/propulsion/propulsion_group.py:166-172 | The partials 1.0, 1.0, 0.5 and 0 are the exact slopes of both outputs in both inputs. |
| PropulsionGroup.HalfDeltaHeatOnlyFromDeltaHeat | run/propulsion/propulsion_group.py:162-167 | The half heat loss does not depend on the fan power. |
| Fan.Fpr | run/propulsion/fan.py:18-19 | FPR is defined exactly when the face pressure is non-zero, and then `FPR * face == exit`. |
| Fan.FprPartials | run/propulsion/fan.py:21-23 | Defined exactly when the face pressure is non-zero. Then `dExit * face == 1` and `dFace * face^2 == -exit`. |
| Fan.FprAboveOne | run/propulsion/fan.py:19 | With positive face pressure, `FPR > 1` exactly when the exit pressure exceeds the face pressure. |
| Fan.FprExitSlope | run/propulsion/fan.py:19-23 | The partial `1/face` is the exact slope of FPR in the exit pressure. |
| Fan.FprFaceDifference | run/propulsion/fan.py:19 | Moving the face pressure by `h` changes FPR by exactly `-exit*h / (face*(face+h))`. |
| Fan.RatioQuotientError | run/propulsion/fan.py:19-22 | The difference quotient minus `-exit/face^2` is an `err` with `err * face^2 * (face+h) == exit*h`. |
| Fan.FprFaceQuotientError | run/propulsion/fan.py:19-22 | The face-pressure difference quotient of FPR differs from the declared partial by exactly `exit*h / (face^2*(face+h))`. |
| Fan.FanPerfWith | run/propulsion/fan.py:28-31 | Setting one input leaves the other three unchanged. |
| Fan.FanPerformance | run/propulsion/fan.py:39-41 | The shaft power is the negated fan power. The heat loss is zero when the real and ideal enthalpies agree, and non-negative for non-negative flow and `h_real >= h_ideal`. |
| Fan.FanPerfPartial | run/propulsion/fan.py:36-47 | A pair that is not declared has partial zero. |
| Fan.FanPerfPartialsExact | run/propulsion/fan.py:40-47 | Each written partial (-1, `h_real - h_ideal`, `mdot`, `-mdot`) is the exact slope of its output in that input, for every input direction. |
| Fan.FanPerfDeclaredMatters | run/propulsion/fan.py:36-41 | Every declared dependency is real: at mass flow 1 with real enthalpy above ideal, raising any declared input by one changes its output. |
| BcCoupling.With | run/bc_coupling.py:69-92 | Setting one input of a component (the statics inputs, or the energy inputs) leaves every other input unchanged. |
| BcCoupling.Statics | run/bc_coupling.py:132-140 | Each matching residual is zero exactly when the CFD and cycle values agree. The thrust residual plus `2*half_drag + 2*target` is `Thrust_fan`, so it is zero exactly when `Thrust_fan == 2*(half_drag + target)`. |
| BcCoupling.SwapNegatesMatching | run/bc_coupling.py:134-139 | Exchanging the CFD and cycle values negates every matching residual. |
| BcCoupling.StaticsFrame | run/bc_coupling.py:102-140 | Inputs that agree on an output's declared set give the same output, so the declarations miss no dependency. |
| BcCoupling.StaticsDeclaredMatters | run/bc_coupling.py:102-140 | Every declared input changes its output when moved from 1 to 2, so the declarations list nothing unused. |
| BcCoupling.MatchingDeclaredMatters | run/bc_coupling.py:102-139 | The same, for the six matching residuals. |
| BcCoupling.DeclaredMatching | run/bc_coupling.py:102-108 | A matching residual is declared on its two compared inputs only. |
| BcCoupling.MatchingIsDifference | run/bc_coupling.py:134-139 | Each matching residual is its CFD value minus its cycle value. |
| BcCoupling.MatchedPair | run/bc_coupling.py:134-139 | The two compared inputs are different inputs. |
| BcCoupling.ThrustPartial | run/bc_coupling.py:109 | The exact partial of the thrust residual is zero for every input outside its declared set. |
| BcCoupling.ThrustSlope | run/bc_coupling.py:109-140 | Moving any one input changes the thrust residual by exactly its partial times the step. The residual is linear in each input alone, with slopes `V`, `mdot`, `area`, `P` (negated at the face) and -2. |
| BcCoupling.ThrustDeclaredMatters | run/bc_coupling.py:109-140 | Each of the ten declared inputs of `res_net_thrust` changes it. |
| BcCoupling.Energy | run/bc_coupling.py:145-174 | `enr_face` plus the fan-face enthalpy flux `Cp*mdot_in*T_in` is half the shaft power; `enr_exit` is the fan-exit enthalpy flux `Cp*mdot_out*T_out`; `res_enr == enr_face - enr_exit`, and it is zero exactly when `0.5*shaft_power == Cp*(mdot_in*T_in + mdot_out*T_out)`. |
| BcCoupling.EnergyFrame | run/bc_coupling.py:158-174 | Inputs that agree on an output's declared set give the same output. |
| BcCoupling.EnergyDeclaredMatters | run/bc_coupling.py:158-174 | For non-zero `Cp`, every declared input, including all five for `res_enr`, changes its output. |
| BcCoupling.DefaultCpDeclaredMatters | run/bc_coupling.py:145-174 | With the default `Cp` of 1.0045, every declared energy input changes its output. |

## Left out

- The OpenMDAO framework is not modelled: variable promotion, connections, units, solvers and derivative checking. Nor are MPI, the optimiser, recorders or file I/O. `Model` stands in for the optimisation model and records only the design variables added.
- The framework's rejection of a duplicate design-variable name is not modelled. Instead, `RegisteredNamesDistinct` proves that no duplicate is added when the filter's keys are distinct and no parameter is listed twice, and `DriverNamesDistinct` proves it for the driver's own call.
- `PoddedFan` is not part of this model: the pyCycle compressor, fan map, balance and Newton solver are external iterative numerics. Nor are the debug components, which only print; the builders; or the `BCCouplingGroup` and `PropulsionGroup` set-up, which is framework wiring.
- The graph assembly and external builders in `aeroprop_mda.py` are not part of this model. Three facts from it are modelled as constants: the list of excluded geometry keys, the two connections into the geometry links, and the two connections out of them. A connection is modelled as its two (subsystem, variable) endpoints; OpenMDAO's resolution of promoted names is not modelled.
- Quantities are exact `real` numbers, not IEEE doubles, so rounding, overflow and complex-step numerics are not modelled. The complex-step partials are represented by their exact values and dependency sets.
- Fpr: a zero face pressure gives `None`, where numpy gives `inf` or `nan` with a warning.
- FprPartials: likewise, a zero face pressure gives `None` for both partials, where numpy gives `inf` or `nan` with a warning.
- FprFaceQuotientError: states the exact error term `exit*h / (face^2*(face+h))` of the face-pressure partial, but not the limit as `h` goes to 0. Real-number limits are left to the reader.
- GeoVars.GeoVar: component, group and parameter names are drawn from the families that occur (two components, `XSecCurve_<n>`, `XSec_<n>`, four parameter names), not from arbitrary strings. The filter's keys and group lists are arbitrary strings.
- AddGeoDvs.RegisterVar: a Python dictionary is modelled as its entries in insertion order. Distinct keys are a hypothesis of the lemmas that need them, not a precondition of the method.
- The `Cp` option's type check (`types=float`) is not modelled; `cp` is any real.
