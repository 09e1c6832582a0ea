# Thermal building model: envelope derivation, 5R1C demand simulation, overheating indicator

A Dafny model of three parts of the oemof thermal building model, with proofs of their properties. All arithmetic is over `real`.

- **Envelope derivation** (`Building` and `BuildingParameters` in the tabula reader) has four steps:
  - check the key naming of the expert-mode dictionaries (module `ParameterKeys`);
  - select a reference building from the TABULA catalog by country, size class, construction year and refurbishment status (module `Catalog`);
  - scale the catalog's element areas to a requested floor area;
  - derive the 5R1C parameters from them (module `Envelope`): the conductances H_tr,em, H_tr,w, H_ve, H_tr,is and H_tr,ms, and the capacitance C_m. These follow sections 7.2.2.2, 9.3.1 and 12.3.1.2 of ISO 13790.
- **Hourly heating and cooling demand simulator** (`HeatDemand_Simulation_5RC`) is the simple hourly method of Annex C of ISO 13790.
  - Module `Network` holds the node equations C.1 to C.11. They are evaluated for an injected power by the Crank–Nicolson scheme. The model proves that the result satisfies the heat balances of the three nodes and is affine in the injected power.
  - Module `Simulation` holds the rest:
    - the construction-time check of the heating setpoints;
    - the mode decision from a zero-power probe;
    - the demand found by interpolating against a 10 W/m² probe (formula C.13), then limited to the plant;
    - the hour-by-hour run that carries the mass temperature and the last delivered power from hour to hour.
- **Excess temperature degree hours of DIN 4108-2** (module `PostProcessing`).

Two places in the source deviate from what the code evidently intends (see "## Findings"). `Common.Fidelity` selects between the code as written (`AsWritten`) and the intended behaviour (`Intended`). Every member that depends on the choice takes it as a parameter; lemmas about one reading say which.

Where the simulator's parameters or comments suggest more than its code does, the model follows the code:
- The constructor accepts an initial air temperature `t_inital` and initial mass temperatures `t_m` and `t_m_ts`, but no computation reads them. Every run starts with a mass temperature of 20 °C (`Simulation.InitialMass`), and the first reported air temperature is computed, not given.
- The comment of step 4 of the demand calculation says an insufficient plant runs at its maximum. The code sets nothing in that case and keeps the previous hour's value. The model has both readings.

The combined conductances H_1, H_2 and H_3 come from the `M5RC` class. `m_5RC.py` is not part of this model. `Network.H1`, `Network.H2` and `Network.H3` define them as in sections C.6 to C.8 of ISO 13790:
- H_1 is H_ve in series with H_tr,is;
- H_2 is H_1 in parallel with H_tr,w;
- H_3 is H_2 in series with H_tr,ms.

## Model

| member | source | states |
|---|---|---|
| ParameterKeys.CheckNumberedKeys | src/oemof/thermal_building_model/tabula/tabula_reader.py:105-117 | A numbered dictionary passes iff every key is the field name, an underscore and an integer literal. On failure it names the first bad key: a prefix mismatch when the prefix is wrong, otherwise a non-integer suffix. |
| ParameterKeys.CheckOrientationKeys | src/oemof/thermal_building_model/tabula/tabula_reader.py:92-104 | The orientation-specific window dictionary passes iff all five orientation keys occur among its keys. A failure names that field. |
| ParameterKeys.CheckField | src/oemof/thermal_building_model/tabula/tabula_reader.py:84-117 | A field passes iff it meets its naming rule. Only dictionary-valued fields named `a_…`, `u_…` or `b_…` can fail. |
| ParameterKeys.CheckFields | src/oemof/thermal_building_model/tabula/tabula_reader.py:82-87 | The fields pass iff each one passes. A failure is the verdict of the first failing field, all earlier fields being valid. |
| ParameterKeys.Validate | src/oemof/thermal_building_model/tabula/tabula_reader.py:59-87 | Construction of the expert-mode parameters succeeds iff every one of the twenty dataclass fields meets its naming rule. |
| ParameterKeys.CheckFieldsPointwise | src/oemof/thermal_building_model/tabula/tabula_reader.py:82-87 | Two field lists whose fields get the same verdict position by position get the same overall verdict. |
| ParameterKeys.UncheckedFieldsIgnored | src/oemof/thermal_building_model/tabula/tabula_reader.py:78-87 | The thermal-bridging and glazing-transmittance fields are never checked: replacing them never changes the verdict. |
| ParameterKeys.OrientationSupersetAccepted | src/oemof/thermal_building_model/tabula/tabula_reader.py:92-104 | The orientation-specific window field is accepted iff its key set contains the five orientation keys; extra keys are allowed. |
| Catalog.VariantIndex | src/oemof/thermal_building_model/tabula/tabula_reader.py:209-222 | Exactly the three known refurbishment statuses map to a variant, which lies in 1..3. Any other status applies no variant filter. |
| Catalog.FilterBase | src/oemof/thermal_building_model/tabula/tabula_reader.py:192-208 | Keeps exactly the rows that match the country, size class, reference-exemplary marker and year range. Non-numeric years count as 0. |
| Catalog.FilterVariant | src/oemof/thermal_building_model/tabula/tabula_reader.py:219-222 | Keeps exactly the rows with the given variant number. |
| Catalog.Survivors | src/oemof/thermal_building_model/tabula/tabula_reader.py:192-222 | A reference definition of selection by one conjunctive predicate: it keeps exactly the rows matching every condition. |
| Catalog.TwoStageIsConjunction | src/oemof/thermal_building_model/tabula/tabula_reader.py:192-222 | Filtering in two stages, as the source does, keeps the same rows in the same order as the conjunctive filter. |
| Catalog.Select | src/oemof/thermal_building_model/tabula/tabula_reader.py:185-229 | Selection fails iff more than one row survives, and then reports the count. Otherwise it returns the survivors' variant codes, at most one; none is allowed. |
| Catalog.SelectSound | src/oemof/thermal_building_model/tabula/tabula_reader.py:224-229 | A returned code belongs to a catalog row meeting every condition. Any row meeting every condition is the one whose code is returned. |
| Envelope.FloorAreaRatio | src/oemof/thermal_building_model/tabula/tabula_reader.py:398-429 | Without a requested area, the reference area is used with ratio 1. Otherwise ratio × reference = requested, the experimental advisory fires, and the far-off advisory fires iff the ratio leaves [0.9, 1.1]. A zero reference area fails. |
| Envelope.FarOffMeansTenPercent | src/oemof/thermal_building_model/tabula/tabula_reader.py:423-429 | For a positive reference, the far-off advisory fires iff the requested area is below 90 % or above 110 % of the reference. |
| Envelope.LoadGeometry | src/oemof/thermal_building_model/tabula/tabula_reader.py:268-365 | Loading fails only for a requested area against a zero reference. The ratio times the reference area is the floor area used. The floor area is the requested one, or the reference when none is requested. |
| Envelope.LoadGeometryScalesAreas | src/oemof/thermal_building_model/tabula/tabula_reader.py:279-365 | Every roof, floor, wall, door, window and per-orientation window area is the row's value times the ratio. U-values, b-values, g-values, the bridging surcharge and the ventilation data are copied unscaled. |
| Envelope.AccumulateOpaque | src/oemof/thermal_building_model/tabula/tabula_reader.py:441-466 | One loop over walls, roofs or floors adds Σ a·u·b to the running conductance and Σ a to the running external area. |
| Envelope.AccumulateDoors | src/oemof/thermal_building_model/tabula/tabula_reader.py:468-474 | The door loop adds Σ a·u (no reduction factor) to the running conductance and Σ a to the running external area. |
| Envelope.ComputeHTrEm | src/oemof/thermal_building_model/tabula/tabula_reader.py:438-479 | The loops of the source compute the opaque conductance HTrEm: the transmission of the opaque envelope plus the surcharge times its total area. |
| Envelope.EnvelopeSums | src/oemof/thermal_building_model/tabula/tabula_reader.py:438-479 | The transmission and area of the opaque envelope are the walls', roofs' and floors' Σ a·u·b and the doors' Σ a·u, and the sum of all their areas. |
| Envelope.ComputeHTrW | src/oemof/thermal_building_model/tabula/tabula_reader.py:481-495 | The glazing loop of the source, accumulator and all, computes exactly Σ a·u over the windows. That is the as-written HTrW. |
| Envelope.MultipliedWindowAreaIsZero | src/oemof/thermal_building_model/tabula/tabula_reader.py:483-490 | The window-area accumulator, started at zero and multiplied by each area, is zero for every window list. |
| Envelope.HTrWAsWrittenDropsBridging | src/oemof/thermal_building_model/tabula/tabula_reader.py:481-495 | As written, the glazing conductance carries no bridging surcharge for any surcharge and any windows. |
| Envelope.HTrWCounterexample | src/oemof/thermal_building_model/tabula/tabula_reader.py:481-495 | One 1 m² window with U = 1 and a surcharge of 0.1 gives 1.0 W/K as written and 1.1 W/K as intended. |
| Envelope.ComputeHTrWIntended | src/oemof/thermal_building_model/tabula/tabula_reader.py:481-495 | The glazing loop with the window areas added instead of multiplied computes the intended HTrW. |
| Envelope.HTrWIntendedSurcharge | src/oemof/thermal_building_model/tabula/tabula_reader.py:481-495 | As intended, the glazing conductance exceeds Σ a·u by exactly the surcharge times the total window area. For non-negative areas and surcharge, it is no smaller than Σ a·u. |
| Envelope.HTrEmScales | src/oemof/thermal_building_model/tabula/tabula_reader.py:279-332 | Scaling every opaque and door area by a ratio scales the opaque conductance by the same ratio. |
| Envelope.HTrWScales | src/oemof/thermal_building_model/tabula/tabula_reader.py:337-343 | Scaling every window area by a ratio scales the glazing conductance by the same ratio, in both readings. |
| Envelope.ClassTable | src/oemof/thermal_building_model/tabula/tabula_reader.py:176-182 | Exactly the five building classes are known, each with positive mass-area and capacitance multipliers. |
| Envelope.ClassTableOrdered | src/oemof/thermal_building_model/tabula/tabula_reader.py:176-182 | From very light to very heavy, the mass-area multiplier never decreases and the capacitance multiplier strictly increases. |
| Envelope.Derive | src/oemof/thermal_building_model/tabula/tabula_reader.py:231-261 | Derivation fails iff the building class is unknown, and reports that class. Otherwise the configuration carries the geometry's floor area, ventilation coefficient and air change rate. Its H_tr,em is `HTrEm` of the geometry, the value the element loops compute (`Envelope.ComputeHTrEm`). Its H_tr,w is `HTrW` of the windows, which as written drops the bridging term (`Envelope.ComputeHTrW`). The remaining fields are the class multipliers times the floor area (`Envelope.FloorProportional`). |
| Envelope.DeriveFromRow | src/oemof/thermal_building_model/tabula/tabula_reader.py:231-245 | The catalog path fails iff a requested area meets a zero reference or the class is unknown. Its floor area is the requested area, or the reference area without one. |
| Envelope.FloorProportional | src/oemof/thermal_building_model/tabula/tabula_reader.py:431-530 | In terms of the floor area A: A_t = 4.5·A; H_tr,is = 3.45·A_t = 15.525·A; A_m = a_m·A; H_tr,ms = 9.1·A_m; C_m = c_m·A; H_ve = (1200/3600)·n·h·A. |
| Envelope.DeriveScales | src/oemof/thermal_building_model/tabula/tabula_reader.py:497-530 | Two geometries whose floor areas and transmission conductances differ by a ratio derive configurations whose every area, conductance and capacitance differs by that ratio. |
| Envelope.EnvelopeScales | src/oemof/thermal_building_model/tabula/tabula_reader.py:268-365 | Deriving for a requested floor area f gives requested / reference times every area, conductance and the capacitance of the reference derivation. |
| Envelope.EnvelopePositive | src/oemof/thermal_building_model/tabula/tabula_reader.py:231-261 | With positive catalog inputs, a known class and a positive (or no) requested area: derivation succeeds, and every conductance, area and the capacitance is strictly positive. |
| Envelope.HTrEmPositive | src/oemof/thermal_building_model/tabula/tabula_reader.py:438-479 | At least one wall, positive wall data, non-negative roof, floor and door data (a zero-area second roof or floor included) and a non-negative surcharge give a positive opaque conductance. |
| Envelope.HTrWPositive | src/oemof/thermal_building_model/tabula/tabula_reader.py:481-495 | Positive windows give a positive glazing conductance in both readings. |
| Network.Series | src/thermal_building_model/helpers/building_heat_demand_simulation.py:98-106 | Two positive conductances in series give a positive conductance below each of them. |
| Network.SeriesProduct | src/thermal_building_model/helpers/building_heat_demand_simulation.py:98-106 | The series conductance times the sum of the two conductances is their product, the closed form of 1/(1/a + 1/b). |
| Network.H1 | src/thermal_building_model/helpers/building_heat_demand_simulation.py:98-100 | H_1 is positive and below both H_ve and H_tr,is. |
| Network.H2 | src/thermal_building_model/helpers/building_heat_demand_simulation.py:101-103 | H_2 is at least H_1 and positive. |
| Network.H3 | src/thermal_building_model/helpers/building_heat_demand_simulation.py:104-106 | H_3 is positive and below both H_2 and H_tr,ms. |
| Network.HeatFlows | src/thermal_building_model/helpers/building_heat_demand_simulation.py:340-363 | The air node gets half the internal gains plus the injected power. The mass node gets the share A_m/A_t of half the internal gains plus the solar gains. Surface and mass together get 1 − H_tr,w/(9.1·A_t) of that. |
| Network.FlowsShift | src/thermal_building_model/helpers/building_heat_demand_simulation.py:357-363 | Only the air-node flow depends on the injected power, and it moves one for one with it. |
| Network.UpdateBalances | src/thermal_building_model/helpers/building_heat_demand_simulation.py:242-264 | One evaluation satisfies the node balances of Annex C. The capacity times the mass temperature's change equals the incoming mass flow less the mass loss at the mean temperature. The mean mass temperature is the midpoint of the old and new. The surface and air nodes are in heat balance. |
| Network.MassNodeBalance | src/thermal_building_model/helpers/building_heat_demand_simulation.py:366-408 | In the unreduced network, the capacity times the mass temperature's change is the mass gains plus the flow from outdoors through H_tr,em plus the flow from the surface node through H_tr,ms, both at the mean mass temperature. This checks C.5 and the combined conductances H_2 and H_3 against the network they reduce. |
| Network.StationaryMass | src/thermal_building_model/helpers/building_heat_demand_simulation.py:366-373 | When the incoming mass flow equals (H_3 + H_tr,em) times the old mass temperature, the mass temperature is kept. |
| Network.MassFlowShift | src/thermal_building_model/helpers/building_heat_demand_simulation.py:375-387 | The total mass-node flow moves by the injected power times its unit response. |
| Network.TmNextShift | src/thermal_building_model/helpers/building_heat_demand_simulation.py:366-373 | The new mass temperature moves with the mass-node flow by the unit response of the mass update. |
| Network.SurfaceShift | src/thermal_building_model/helpers/building_heat_demand_simulation.py:396-407 | The surface temperature moves with the mass temperature and the air-node flow by their unit responses. |
| Network.AirShift | src/thermal_building_model/helpers/building_heat_demand_simulation.py:409-420 | The air temperature moves with the surface temperature and the air-node flow by their unit responses. |
| Network.UpdateAffine | src/thermal_building_model/helpers/building_heat_demand_simulation.py:242-264 | The new mass temperature and the air temperature are affine in the injected power. Each is its value without power plus the power times the unit response of a network at rest. |
| Network.UnitResponsePositive | src/thermal_building_model/helpers/building_heat_demand_simulation.py:242-264 | For positive conductances, one watt into the air node of a network at rest raises both the new mass temperature and the air temperature. |
| Simulation.HasDemand | src/thermal_building_model/helpers/building_heat_demand_simulation.py:215-240 | Heating and cooling are never both demanded. Heating iff the free-running air is below the heating setpoint. Neither iff it lies between the two setpoints. |
| Simulation.Unrestricted | src/thermal_building_model/helpers/building_heat_demand_simulation.py:325-338 | The interpolated demand is absent exactly when the two probes give the same temperature. Otherwise it satisfies the intercept relation with the probe line. |
| Simulation.Limit | src/thermal_building_model/helpers/building_heat_demand_simulation.py:306-319 | A demand within the plant range is delivered. Outside it, as written, the previous hour's power is kept, and the step fails without one. As intended, the delivered power lies in the plant range. |
| Simulation.LimitNearest | src/thermal_building_model/helpers/building_heat_demand_simulation.py:311-313 | The intended limited power is, among all powers of the plant range, the one nearest to the unrestricted demand. |
| Simulation.EnergyDemand | src/thermal_building_model/helpers/building_heat_demand_simulation.py:266-323 | The demand calculation fails with a zero floor area iff the floor area is zero. |
| Simulation.ProbeSeparates | src/thermal_building_model/helpers/building_heat_demand_simulation.py:293-300 | The 10 W/m² probe changes the air temperature iff the floor area is not zero. |
| Simulation.InterpolationReachesSetpoint | src/thermal_building_model/helpers/building_heat_demand_simulation.py:281-304 | For a non-zero floor area the interpolated demand exists. Driving the network with it lands the air temperature exactly on the setpoint. |
| Simulation.UnrestrictedSign | src/thermal_building_model/helpers/building_heat_demand_simulation.py:325-338 | The interpolated demand is positive (heating) toward a setpoint above the free-running air temperature, and negative (cooling) toward one below it. |
| Simulation.Step | src/thermal_building_model/helpers/building_heat_demand_simulation.py:171-202 | An hour reports at most one of heating and cooling, and they sum to the delivered power. When the free-running air is below the heating setpoint the power goes to the heating column. When it is not, but is above the cooling setpoint, the power goes to the cooling column. The reported air and new mass temperatures are the network's for that power. |
| Simulation.StepComfortable | src/thermal_building_model/helpers/building_heat_demand_simulation.py:173-181 | Within the comfort band nothing is delivered, and the free-running temperatures are reported and carried. |
| Simulation.StepZeroFloorArea | src/thermal_building_model/helpers/building_heat_demand_simulation.py:293-304 | Outside the comfort band a zero floor area stops the hour with a zero-division error, in both readings. |
| Simulation.StepReachesSetpoint | src/thermal_building_model/helpers/building_heat_demand_simulation.py:306-323 | When the plant can deliver the unrestricted demand, the hour ends exactly at the violated setpoint. |
| Simulation.StepIntendedWithinPlant | src/thermal_building_model/helpers/building_heat_demand_simulation.py:306-319 | As intended, with a plant range containing zero, the hour succeeds with heating in [0, upper] and cooling in [lower, 0]. |
| Simulation.StepAsWrittenStale | src/thermal_building_model/helpers/building_heat_demand_simulation.py:306-323 | As written, an hour whose heating demand exceeds the plant reports the previous hour's power as its heating demand and delivers it. |
| Simulation.StepLimits | src/thermal_building_model/helpers/building_heat_demand_simulation.py:266-323 | Outside the comfort band, with a non-zero floor area, the interpolated demand exists. The hour succeeds iff limiting it succeeds, and then delivers the limited power. |
| Simulation.StepDeliversDemand | src/thermal_building_model/helpers/building_heat_demand_simulation.py:306-309 | When the plant can meet the interpolated demand, the hour delivers exactly that demand, in both readings. |
| Simulation.StepOverloadedAsWritten | src/thermal_building_model/helpers/building_heat_demand_simulation.py:306-323 | As written, an overloaded hour (heating or cooling) succeeds iff an earlier hour set a power, and then delivers that power. Otherwise it fails with the unset-power error. |
| Simulation.StepOverloadedIntended | src/thermal_building_model/helpers/building_heat_demand_simulation.py:306-323 | As intended, an overloaded hour succeeds and delivers the upper limit for excess heating demand and the lower limit for excess cooling demand. That power is no farther from the demand than any power in the plant range. |
| Simulation.LimitCounterexample | src/thermal_building_model/helpers/building_heat_demand_simulation.py:306-319 | Concrete case: 2000 W against a ±1000 W plant after −300 W gives −300 W as written and 1000 W as intended. With no previous hour it fails. |
| Simulation.SetpointAt | src/thermal_building_model/helpers/building_heat_demand_simulation.py:119-126 | A fixed setpoint applies to every hour. A list supplies its k-th value for hour k and is absent past its end. |
| Simulation.StepAt | src/thermal_building_model/helpers/building_heat_demand_simulation.py:117-134 | Hour k fails with an index error iff some per-hour input does not reach hour k. |
| Simulation.Run | src/thermal_building_model/helpers/building_heat_demand_simulation.py:112-139 | A successful run of n hours has n values per series and n + 1 mass temperatures starting at 20 °C. A last delivered power exists iff n > 0. |
| Simulation.Solve | src/thermal_building_model/helpers/building_heat_demand_simulation.py:112-139 | A successful solve returns three series with one value per time step. |
| Simulation.RunThreads | src/thermal_building_model/helpers/building_heat_demand_simulation.py:127-138 | Hour k of a run is the step from the k-th mass temperature and the power delivered in the hour before it. It reports the heating, the negated cooling and the air temperature, and its new mass temperature is the (k+1)-th. |
| Simulation.RunCovers | src/thermal_building_model/helpers/building_heat_demand_simulation.py:118-134 | A successful run never reads past the end of its inputs. |
| Simulation.RunIntendedWithinPlant | src/thermal_building_model/helpers/building_heat_demand_simulation.py:112-139 | As intended, with a non-zero floor area, non-negative plant limits and inputs covering the horizon: the run succeeds, and every heating and cooling value lies between zero and its plant limit. |
| Simulation.Lowest | src/thermal_building_model/helpers/building_heat_demand_simulation.py:43-46 | The minimum of a non-empty list is an element of it and no larger than any element. |
| Simulation.Highest | src/thermal_building_model/helpers/building_heat_demand_simulation.py:47-50 | The maximum of a non-empty list is an element of it and no smaller than any element. |
| Simulation.Extreme | src/thermal_building_model/helpers/building_heat_demand_simulation.py:43-50 | The value a setpoint check reads exists unless the list is empty, and bounds every hour's setpoint from the requested side. |
| Simulation.ValidateSetpoints | src/thermal_building_model/helpers/building_heat_demand_simulation.py:39-57 | Construction succeeds iff the smallest ceiling exceeds the largest heating setpoint; an absent ceiling is the heating setpoint itself. The warning flag is set iff the gap is below 0.2 K. |
| Simulation.ValidatedSetpointsOrdered | src/thermal_building_model/helpers/building_heat_demand_simulation.py:52-53 | Accepted setpoints keep every hour's heating setpoint strictly below every hour's ceiling. |
| Simulation.ValidateWithoutCeilingFails | src/thermal_building_model/helpers/building_heat_demand_simulation.py:39-42 | Without a ceiling the check compares the heating setpoint with itself, so construction always fails. |
| PostProcessing.Excess | src/thermal_building_model/helpers/post_processing.py:9-12 | An hour's excess is non-negative, positive iff the temperature is strictly above the boundary, and at least the temperature minus the boundary. |
| PostProcessing.DegreeHoursDefault | src/thermal_building_model/helpers/post_processing.py:1-2 | Without a given boundary, the boundary is 26 °C: the indicator is non-negative, and zero iff no hour is strictly above 26 °C. |
| PostProcessing.ExcessDegreeHours | src/thermal_building_model/helpers/post_processing.py:1-13 | The loop computes the sum over the hours of max(0, t − boundary), which is non-negative. |
| PostProcessing.DegreeHoursNonNegative | src/thermal_building_model/helpers/post_processing.py:8-13 | The indicator is never negative. |
| PostProcessing.DegreeHoursAppend | src/thermal_building_model/helpers/post_processing.py:9-12 | The indicator of two concatenated series is the sum of theirs. |
| PostProcessing.DegreeHoursZero | src/thermal_building_model/helpers/post_processing.py:10-12 | The indicator is zero iff no hour is strictly above the boundary. |
| PostProcessing.DegreeHoursAntitone | src/thermal_building_model/helpers/post_processing.py:1-2 | Raising the boundary never increases the indicator. |
| PostProcessing.HourBelowTotal | src/thermal_building_model/helpers/post_processing.py:8-13 | Every single hour's excess is bounded by the indicator of the whole series. |

## Left out

- Reading the catalog CSV, looking up a row by its code, prints, warning texts and the printed percentage are I/O. The catalog is a sequence of rows; the two advisories are booleans; the setpoint-gap warning is a flag.
- Python `int()` accepts surrounding whitespace, underscores between digits and non-ASCII decimal digits. The key check accepts only an optional sign followed by ASCII decimal digits.
- Solar gains through windows depend on window and location classes and weather data that are not part of this model.
- The catalog's reference annual values (transmission, ventilation and demand echoes) are copied, not derived.
- The expert-mode route from `BuildingParameters` to a configuration is not modelled; only its key check is. That route copies `delta_u_thermal_bridging`, but the conductance code reads `delta_u_thermal_bridiging`, which only the catalog route sets. `Envelope.Derive` takes the surcharge from the geometry instead.
- `m_5RC.py` is not part of this model. The per-step flows that the simulator's constructor precomputes through it are overwritten in every hour and are left out; H_1 to H_3 follow ISO 13790.
- The `t_opperative` property is never used by the simulation.
- Floating-point rounding: all quantities are reals.
- Network.WellFormed: the network is evaluated only for positive H_ve, H_tr,is and H_tr,ms, a positive internal area and non-negative H_tr,w, H_tr,em and C_m. Configurations outside this range are physically meaningless. The source still computes a result for many of them, for example a negative H_tr,em, H_tr,w or C_m, and the model does not cover those. The configurations for which the source divides by zero all lie outside the range. The zero floor area is the one division by zero modelled as an error, because it arises from valid positive conductances.
- The `NameError` branch of the demand calculation is unreachable, because it is only entered when heating or cooling is demanded. The model leaves it out.
- Calling `solve` a second time on the same object negates the cooling limit again. The model runs once, negating it once.
- Setpoints other than a number or a list (which the source leaves unset and then fails on) are not representable.
- Simulation.EnergyDemand: its contract states only the zero-floor-area error. The power an hour delivers is stated at the hour level instead:
  - `Simulation.StepLimits` ties it to `Simulation.Limit` of the interpolated demand;
  - `Simulation.StepDeliversDemand` covers a demand the plant can meet;
  - `Simulation.StepOverloadedAsWritten` covers an overloaded hour as written: the previous power, or the unset-power failure;
  - `Simulation.StepOverloadedIntended` covers an overloaded hour as intended: the nearest plant limit.

## Findings

| source | as written | input that shows it | evidently intended | confidence | as-written member | corrected member |
|---|---|---|---|---|---|---|
| src/oemof/thermal_building_model/tabula/tabula_reader.py:483-493 | The window-area accumulator starts at 0 and is multiplied by each window area, so it stays 0 and the thermal-bridging surcharge on the glazing is always dropped. | One window of 1 m² with U = 1 W/(m²K) and a surcharge of 0.1 W/(m²K): 1.0 W/K instead of 1.1 W/K. | Add the window areas, so that H_tr,w = Σ a·u + ΔU·Σ a, as for the opaque elements. | high; not executed | Envelope.HTrWAsWrittenDropsBridging | Envelope.HTrWIntendedSurcharge |
| src/thermal_building_model/helpers/building_heat_demand_simulation.py:306-323 | The two asserts test non-empty tuples and never fire. Nothing clamps an out-of-range demand, so the hour delivers whatever power the previous hour left behind (any sign). When no earlier hour has set a power (neither a comfortable hour, which sets 0, nor an in-range demand hour), the step fails. | Unrestricted demand 2000 W, plant ±1000 W, previous hour −300 W: −300 W is reported as heating. | Deliver the plant limit nearest to the unrestricted demand. | high; not executed | Simulation.StepOverloadedAsWritten | Simulation.StepOverloadedIntended |
