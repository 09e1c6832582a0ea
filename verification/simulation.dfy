/** The hourly heating and cooling demand simulation of the simple hourly
    method (ISO 13790, section C.4.2): for each hour, probe the free-running
    air temperature, and when it leaves the comfort band find the power that
    brings it back to the violated setpoint, limited by the plant. */
module Simulation {
  import opened Common
  import opened Envelope
  import opened Network

  /** Why a run stops: a per-hour input list shorter than the horizon, a
      zero floor area in the interpolation, a demand read before any hour
      set it, an empty setpoint list or misordered setpoints. */
  datatype SimError =
    | IndexOutOfRange(step: nat)
    | ZeroFloorArea(step: nat)
    | UnsetEnergyDemand(step: nat)
    | EmptySetpointList
    | SetpointsMisordered

  /** The initial mass temperature of every run, in °C. */
  const InitialMass: real := 20.0

  /** The probe power per square metre of floor area, in W/m². */
  const ProbePowerDensity: real := 10.0

  /** The gap between the heating setpoint and its ceiling below which a
      warning is issued, in K. */
  const SetpointGapWarning: real := 0.2

  // ---------------------------------------------------------------------
  // One hour

  datatype Demand = Demand(heating: bool, cooling: bool)

  /** Heating is needed below the heating setpoint, cooling above the
      cooling setpoint; heating takes precedence. */
  function HasDemand(tAir0: real, setHeating: real, setCooling: real): (d: Demand)
    ensures !(d.heating && d.cooling)
    ensures d.heating <==> tAir0 < setHeating
    ensures !d.heating && !d.cooling <==> setHeating <= tAir0 <= setCooling
  {
    if tAir0 < setHeating then Demand(true, false)
    else if tAir0 > setCooling then Demand(false, true)
    else Demand(false, false)
  }

  /** The power that brings the air to `tSet`, by the intercept theorem on
      the line through (0, `t0`) and (`energy10`, `t10`); absent when that
      line is flat, where the source divides by zero. */
  function Unrestricted(energy10: real, tSet: real, t0: real, t10: real): (r: Option<real>)
    ensures r.None? <==> t10 == t0
    ensures r.Some? ==> r.value * (t10 - t0) == energy10 * (tSet - t0)
  {
    if t10 == t0 then None
    else
      DivTimes(energy10 * (tSet - t0), t10 - t0);
      Some(energy10 * (tSet - t0) / (t10 - t0))
  }

  /** The power actually delivered for an unrestricted demand `u` and the
      plant range [`lower`, `upper`]. A demand within range is delivered.
      Outside it the code as written leaves the previous hour's demand in
      place (and fails when there is none); the intended behaviour delivers
      the nearest limit. */
  function Limit(u: real, lower: real, upper: real, previous: Option<real>, fidelity: Fidelity, step: nat)
    : (r: Result<real, SimError>)
    ensures lower <= u <= upper ==> r == Ok(u)
    ensures fidelity == AsWritten && !(lower <= u <= upper) ==>
      (r.Ok? <==> previous.Some?) && (r.Ok? ==> r.value == previous.value)
    ensures fidelity == Intended && lower <= upper ==> r.Ok? && lower <= r.value <= upper
  {
    if lower <= u <= upper then Ok(u)
    else
      match fidelity
      case AsWritten => if previous.Some? then Ok(previous.value) else Err(UnsetEnergyDemand(step))
      case Intended => Ok(if u > upper then upper else lower)
  }

  /** `x` is no farther from `u` than `v` is. */
  predicate NoFartherThan(x: real, v: real, u: real)
  {
    (x - u) * (x - u) <= (v - u) * (v - u)
  }

  /** The intended limit is the point of the plant range nearest to the
      unrestricted demand. */
  lemma LimitNearest(u: real, lower: real, upper: real, previous: Option<real>, step: nat, v: real)
    requires lower <= v <= upper
    ensures NoFartherThan(Limit(u, lower, upper, previous, Intended, step).value, v, u)
  {
    var r := Limit(u, lower, upper, previous, Intended, step).value;
    if u > upper {
      assert 0.0 <= u - r <= u - v;
      SquareMonotone(u - r, u - v);
      assert (r - u) * (r - u) == (u - r) * (u - r);
      assert (v - u) * (v - u) == (u - v) * (u - v);
    } else if u < lower {
      assert 0.0 <= r - u <= v - u;
      SquareMonotone(r - u, v - u);
    }
  }

  lemma SquareMonotone(x: real, y: real)
    requires 0.0 <= x <= y
    ensures x * x <= y * y
  {
    assert x * x <= x * y;
    assert x * y <= y * y;
  }

  /** The demand of an hour that needs heating or cooling toward `tSet`
      (steps 1 to 4 of section C.4.2): probe with no power and with 10 W/m²,
      interpolate, then limit. */
  function EnergyDemand(c: Config5RC, fidelity: Fidelity, tSet: real, lower: real, upper: real,
                        internalGains: real, solarGains: real, tOut: real, tPrev: real,
                        previous: Option<real>, step: nat): (r: Result<real, SimError>)
    requires WellFormed(c)
    ensures r == Err(ZeroFloorArea(step)) <==> c.floor_area == 0.0
  {
    var energy10 := ProbePowerDensity * c.floor_area;
    var t0 := Update(c, 0.0, internalGains, solarGains, tOut, tPrev).tAir;
    var t10 := Update(c, energy10, internalGains, solarGains, tOut, tPrev).tAir;
    ProbeSeparates(c, internalGains, solarGains, tOut, tPrev);
    match Unrestricted(energy10, tSet, t0, t10)
    case None => Err(ZeroFloorArea(step))
    case Some(u) => Limit(u, lower, upper, previous, fidelity, step)
  }

  /** The probe power changes the air temperature iff the floor area is not zero. */
  lemma ProbeSeparates(c: Config5RC, internalGains: real, solarGains: real, tOut: real, tPrev: real)
    requires WellFormed(c)
    ensures var energy10 := ProbePowerDensity * c.floor_area;
      Update(c, energy10, internalGains, solarGains, tOut, tPrev).tAir
        == Update(c, 0.0, internalGains, solarGains, tOut, tPrev).tAir
      <==> c.floor_area == 0.0
  {
    var energy10 := ProbePowerDensity * c.floor_area;
    UpdateAffine(c, energy10, internalGains, solarGains, tOut, tPrev);
    UnitResponsePositive(c);
    if c.floor_area != 0.0 {
      ProductNonZero(energy10, UnitResponse(c).tAir);
    }
  }

  lemma ProductNonZero(x: real, y: real)
    requires x != 0.0 && y != 0.0
    ensures x * y != 0.0
  {
  }

  /** Interpolating between the two probes hits the setpoint exactly: the
      unrestricted demand times the unit response is the gap to the
      setpoint, and the network driven with it reaches the setpoint. */
  lemma InterpolationReachesSetpoint(c: Config5RC, tSet: real, internalGains: real, solarGains: real,
                                     tOut: real, tPrev: real)
    requires WellFormed(c) && c.floor_area != 0.0
    ensures var energy10 := ProbePowerDensity * c.floor_area;
      var t0 := Update(c, 0.0, internalGains, solarGains, tOut, tPrev).tAir;
      var u := Unrestricted(energy10, tSet, t0, Update(c, energy10, internalGains, solarGains, tOut, tPrev).tAir);
      && u.Some?
      && u.value * UnitResponse(c).tAir == tSet - t0
      && Update(c, u.value, internalGains, solarGains, tOut, tPrev).tAir == tSet
  {
    var energy10 := ProbePowerDensity * c.floor_area;
    var t0 := Update(c, 0.0, internalGains, solarGains, tOut, tPrev).tAir;
    var t10 := Update(c, energy10, internalGains, solarGains, tOut, tPrev).tAir;
    var s := UnitResponse(c).tAir;
    UpdateAffine(c, energy10, internalGains, solarGains, tOut, tPrev);
    assert Responds(t10, t0, energy10, s);
    UnitResponsePositive(c);
    assert t10 != t0 by {
      ProductNonZero(energy10, s);
    }
    var u := Unrestricted(energy10, tSet, t0, t10).value;
    InterpolationAlgebra(energy10, s, t0, t10, tSet, u);
    UpdateAffine(c, u, internalGains, solarGains, tOut, tPrev);
    var tu := Update(c, u, internalGains, solarGains, tOut, tPrev).tAir;
    Reaches(tu, t0, u, s, tSet);
  }

  lemma InterpolationAlgebra(k: real, s: real, t0: real, t10: real, tSet: real, u: real)
    requires k != 0.0
    requires Responds(t10, t0, k, s)
    requires u * (t10 - t0) == k * (tSet - t0)
    ensures u * s == tSet - t0
  {
    assert u * (k * s) == k * (tSet - t0);
    Cancel(u, k, s, tSet - t0);
  }

  lemma Reaches(tu: real, t0: real, u: real, s: real, tSet: real)
    requires Responds(tu, t0, u, s) && u * s == tSet - t0
    ensures tu == tSet
  {
  }

  lemma Cancel(u: real, k: real, s: real, x: real)
    requires k != 0.0
    requires u * (k * s) == k * x
    ensures u * s == x
  {
    assert k * (u * s) == k * x;
  }

  /** Heating is a positive power and cooling a negative one: the
      unrestricted demand toward a setpoint above the free-running air
      temperature is positive, toward one below it negative. */
  lemma UnrestrictedSign(c: Config5RC, tSet: real, internalGains: real, solarGains: real,
                         tOut: real, tPrev: real)
    requires WellFormed(c) && c.floor_area != 0.0
    ensures var energy10 := ProbePowerDensity * c.floor_area;
      var t0 := Update(c, 0.0, internalGains, solarGains, tOut, tPrev).tAir;
      var u := Unrestricted(energy10, tSet, t0, Update(c, energy10, internalGains, solarGains, tOut, tPrev).tAir);
      && u.Some?
      && (t0 < tSet ==> u.value > 0.0)
      && (t0 > tSet ==> u.value < 0.0)
  {
    InterpolationReachesSetpoint(c, tSet, internalGains, solarGains, tOut, tPrev);
    UnitResponsePositive(c);
    var energy10 := ProbePowerDensity * c.floor_area;
    var t0 := Update(c, 0.0, internalGains, solarGains, tOut, tPrev).tAir;
    var u := Unrestricted(energy10, tSet, t0, Update(c, energy10, internalGains, solarGains, tOut, tPrev).tAir).value;
    SignOfFactor(u, UnitResponse(c).tAir, tSet - t0);
  }

  lemma SignOfFactor(u: real, s: real, x: real)
    requires s > 0.0 && u * s == x
    ensures x > 0.0 ==> u > 0.0
    ensures x < 0.0 ==> u < 0.0
  {
    if u <= 0.0 {
      assert u * s <= 0.0;
    }
    if u >= 0.0 {
      assert u * s >= 0.0;
    }
  }

  /** What one hour reports: the heating demand, the cooling demand (the
      delivered power, so negative), the air temperature, the new mass
      temperature and the delivered power. */
  datatype StepOutput = StepOutput(heating: real, cooling: real, tAir: real, tmNext: real, energy: real)

  /** One hour: probe the free-running network; within the comfort band
      deliver nothing, otherwise deliver the limited demand toward the
      violated setpoint and evaluate the network with it. */
  function Step(c: Config5RC, fidelity: Fidelity, setHeating: real, setCooling: real, lower: real, upper: real,
                internalGains: real, solarGains: real, tOut: real, tPrev: real,
                previous: Option<real>, step: nat): (r: Result<StepOutput, SimError>)
    requires WellFormed(c)
    ensures r.Ok? ==> r.value.heating == 0.0 || r.value.cooling == 0.0
    ensures r.Ok? ==> r.value.heating + r.value.cooling == r.value.energy
    ensures var t0 := Update(c, 0.0, internalGains, solarGains, tOut, tPrev).tAir;
      r.Ok? && t0 < setHeating ==> r.value.cooling == 0.0 && r.value.heating == r.value.energy
    ensures var t0 := Update(c, 0.0, internalGains, solarGains, tOut, tPrev).tAir;
      r.Ok? && setHeating <= t0 && t0 > setCooling ==> r.value.heating == 0.0 && r.value.cooling == r.value.energy
    ensures r.Ok? ==>
      && r.value.tAir == Update(c, r.value.energy, internalGains, solarGains, tOut, tPrev).tAir
      && r.value.tmNext == Update(c, r.value.energy, internalGains, solarGains, tOut, tPrev).tmNext
  {
    var probe := Update(c, 0.0, internalGains, solarGains, tOut, tPrev);
    var d := HasDemand(probe.tAir, setHeating, setCooling);
    if !d.heating && !d.cooling then
      Ok(StepOutput(0.0, 0.0, probe.tAir, probe.tmNext, 0.0))
    else
      var tSet := if d.heating then setHeating else setCooling;
      var e :- EnergyDemand(c, fidelity, tSet, lower, upper, internalGains, solarGains, tOut, tPrev, previous, step);
      var n := Update(c, e, internalGains, solarGains, tOut, tPrev);
      Ok(StepOutput(if d.heating then e else 0.0, if d.heating then 0.0 else e, n.tAir, n.tmNext, e))
  }

  /** Within the comfort band nothing is delivered and the free-running
      temperatures are reported. */
  lemma StepComfortable(c: Config5RC, fidelity: Fidelity, setHeating: real, setCooling: real, lower: real, upper: real,
                        internalGains: real, solarGains: real, tOut: real, tPrev: real,
                        previous: Option<real>, step: nat)
    requires WellFormed(c)
    requires setHeating <= Update(c, 0.0, internalGains, solarGains, tOut, tPrev).tAir <= setCooling
    ensures Step(c, fidelity, setHeating, setCooling, lower, upper, internalGains, solarGains, tOut, tPrev, previous, step)
         == Ok(StepOutput(0.0, 0.0, Update(c, 0.0, internalGains, solarGains, tOut, tPrev).tAir,
                          Update(c, 0.0, internalGains, solarGains, tOut, tPrev).tmNext, 0.0))
  {
  }

  /** An hour outside the comfort band fails on a zero floor area, in both
      readings of the source. */
  lemma StepZeroFloorArea(c: Config5RC, fidelity: Fidelity, setHeating: real, setCooling: real, lower: real, upper: real,
                          internalGains: real, solarGains: real, tOut: real, tPrev: real,
                          previous: Option<real>, step: nat)
    requires WellFormed(c) && c.floor_area == 0.0
    requires !(setHeating <= Update(c, 0.0, internalGains, solarGains, tOut, tPrev).tAir <= setCooling)
    ensures Step(c, fidelity, setHeating, setCooling, lower, upper, internalGains, solarGains, tOut, tPrev, previous, step)
         == Err(ZeroFloorArea(step))
  {
  }

  /** When the plant can deliver the unrestricted demand, the hour ends
      exactly at the violated setpoint. */
  lemma StepReachesSetpoint(c: Config5RC, fidelity: Fidelity, setHeating: real, setCooling: real, lower: real, upper: real,
                            internalGains: real, solarGains: real, tOut: real, tPrev: real,
                            previous: Option<real>, step: nat)
    requires WellFormed(c) && c.floor_area != 0.0
    requires var t0 := Update(c, 0.0, internalGains, solarGains, tOut, tPrev).tAir;
      var tSet := if t0 < setHeating then setHeating else setCooling;
      var energy10 := ProbePowerDensity * c.floor_area;
      var u := Unrestricted(energy10, tSet, t0, Update(c, energy10, internalGains, solarGains, tOut, tPrev).tAir);
      && !(setHeating <= t0 <= setCooling)
      && u.Some? && lower <= u.value <= upper
    ensures var r := Step(c, fidelity, setHeating, setCooling, lower, upper, internalGains, solarGains, tOut, tPrev, previous, step);
      var t0 := Update(c, 0.0, internalGains, solarGains, tOut, tPrev).tAir;
      && r.Ok?
      && r.value.tAir == (if t0 < setHeating then setHeating else setCooling)
  {
    var t0 := Update(c, 0.0, internalGains, solarGains, tOut, tPrev).tAir;
    var tSet := if t0 < setHeating then setHeating else setCooling;
    InterpolationReachesSetpoint(c, tSet, internalGains, solarGains, tOut, tPrev);
  }

  /** With the intended limiting and a plant range that contains zero, an
      hour that needs heating reports a heating demand within the heating
      capacity and no cooling, and one that needs cooling reports a cooling
      demand within the cooling capacity and no heating. */
  lemma StepIntendedWithinPlant(c: Config5RC, setHeating: real, setCooling: real, lower: real, upper: real,
                                internalGains: real, solarGains: real, tOut: real, tPrev: real,
                                previous: Option<real>, step: nat)
    requires WellFormed(c) && c.floor_area != 0.0
    requires lower <= 0.0 <= upper
    ensures var r := Step(c, Intended, setHeating, setCooling, lower, upper, internalGains, solarGains, tOut, tPrev, previous, step);
      && r.Ok?
      && 0.0 <= r.value.heating <= upper
      && lower <= r.value.cooling <= 0.0
  {
    var t0 := Update(c, 0.0, internalGains, solarGains, tOut, tPrev).tAir;
    if t0 < setHeating {
      UnrestrictedSign(c, setHeating, internalGains, solarGains, tOut, tPrev);
    } else if t0 > setCooling {
      UnrestrictedSign(c, setCooling, internalGains, solarGains, tOut, tPrev);
    }
  }

  /** As written, an hour whose heating demand exceeds the plant reports
      the previous hour's delivered power as its heating demand, whatever
      its sign. */
  lemma StepAsWrittenStale(c: Config5RC, setHeating: real, setCooling: real, lower: real, upper: real,
                           internalGains: real, solarGains: real, tOut: real, tPrev: real,
                           p: real, step: nat)
    requires WellFormed(c) && c.floor_area != 0.0
    requires var t0 := Update(c, 0.0, internalGains, solarGains, tOut, tPrev).tAir;
      var energy10 := ProbePowerDensity * c.floor_area;
      var u := Unrestricted(energy10, setHeating, t0, Update(c, energy10, internalGains, solarGains, tOut, tPrev).tAir);
      && t0 < setHeating
      && u.Some? && u.value > upper
    ensures var r := Step(c, AsWritten, setHeating, setCooling, lower, upper, internalGains, solarGains, tOut, tPrev, Some(p), step);
      r.Ok? && r.value.heating == p && r.value.energy == p
  {
  }

  /** The unrestricted demand of an hour outside the comfort band: the
      interpolated power toward the violated setpoint. */
  function HourDemand(c: Config5RC, setHeating: real, setCooling: real,
                      internalGains: real, solarGains: real, tOut: real, tPrev: real): Option<real>
    requires WellFormed(c)
  {
    var t0 := Update(c, 0.0, internalGains, solarGains, tOut, tPrev).tAir;
    var tSet := if t0 < setHeating then setHeating else setCooling;
    var energy10 := ProbePowerDensity * c.floor_area;
    Unrestricted(energy10, tSet, t0, Update(c, energy10, internalGains, solarGains, tOut, tPrev).tAir)
  }

  /** An hour whose demand the plant can meet delivers that demand, in
      both readings. */
  lemma StepDeliversDemand(c: Config5RC, fidelity: Fidelity, setHeating: real, setCooling: real,
                           lower: real, upper: real, internalGains: real, solarGains: real,
                           tOut: real, tPrev: real, previous: Option<real>, step: nat)
    requires WellFormed(c) && c.floor_area != 0.0
    requires !(setHeating <= Update(c, 0.0, internalGains, solarGains, tOut, tPrev).tAir <= setCooling)
    ensures var u := HourDemand(c, setHeating, setCooling, internalGains, solarGains, tOut, tPrev);
      var r := Step(c, fidelity, setHeating, setCooling, lower, upper, internalGains, solarGains, tOut, tPrev, previous, step);
      && u.Some?
      && (lower <= u.value <= upper ==> r.Ok? && r.value.energy == u.value)
  {
    ProbeSeparates(c, internalGains, solarGains, tOut, tPrev);
  }

  /** As written, an hour whose demand the plant cannot meet, heating or
      cooling, delivers the previous hour's power, and fails when no earlier
      hour has set one. */
  lemma StepOverloadedAsWritten(c: Config5RC, setHeating: real, setCooling: real,
                                lower: real, upper: real, internalGains: real, solarGains: real,
                                tOut: real, tPrev: real, previous: Option<real>, step: nat)
    requires WellFormed(c) && c.floor_area != 0.0
    requires !(setHeating <= Update(c, 0.0, internalGains, solarGains, tOut, tPrev).tAir <= setCooling)
    requires var u := HourDemand(c, setHeating, setCooling, internalGains, solarGains, tOut, tPrev);
      u.Some? && !(lower <= u.value <= upper)
    ensures var r := Step(c, AsWritten, setHeating, setCooling, lower, upper, internalGains, solarGains, tOut, tPrev, previous, step);
      && (r.Ok? <==> previous.Some?)
      && (r.Ok? ==> r.value.energy == previous.value)
      && (r.Err? ==> r.error == UnsetEnergyDemand(step))
  {
  }

  /** As intended, an hour whose demand the plant cannot meet delivers the
      plant limit nearest to the demand: the upper limit for an excess
      heating demand, the lower one for an excess cooling demand. */
  lemma StepOverloadedIntended(c: Config5RC, setHeating: real, setCooling: real,
                               lower: real, upper: real, internalGains: real, solarGains: real,
                               tOut: real, tPrev: real, previous: Option<real>, step: nat, v: real)
    requires WellFormed(c) && c.floor_area != 0.0
    requires !(setHeating <= Update(c, 0.0, internalGains, solarGains, tOut, tPrev).tAir <= setCooling)
    requires var u := HourDemand(c, setHeating, setCooling, internalGains, solarGains, tOut, tPrev);
      u.Some? && !(lower <= u.value <= upper)
    requires lower <= v <= upper
    ensures var u := HourDemand(c, setHeating, setCooling, internalGains, solarGains, tOut, tPrev).value;
      var r := Step(c, Intended, setHeating, setCooling, lower, upper, internalGains, solarGains, tOut, tPrev, previous, step);
      && r.Ok?
      && r.value.energy == (if u > upper then upper else lower)
      && NoFartherThan(r.value.energy, v, u)
  {
    var u := HourDemand(c, setHeating, setCooling, internalGains, solarGains, tOut, tPrev).value;
    StepLimits(c, Intended, setHeating, setCooling, lower, upper, internalGains, solarGains, tOut, tPrev, previous, step);
    LimitNearest(u, lower, upper, previous, step, v);
  }

  /** Outside the comfort band, with a non-zero floor area, an hour ends as
      the limited unrestricted demand does. */
  lemma StepLimits(c: Config5RC, fidelity: Fidelity, setHeating: real, setCooling: real,
                   lower: real, upper: real, internalGains: real, solarGains: real,
                   tOut: real, tPrev: real, previous: Option<real>, step: nat)
    requires WellFormed(c) && c.floor_area != 0.0
    requires !(setHeating <= Update(c, 0.0, internalGains, solarGains, tOut, tPrev).tAir <= setCooling)
    ensures var u := HourDemand(c, setHeating, setCooling, internalGains, solarGains, tOut, tPrev);
      var r := Step(c, fidelity, setHeating, setCooling, lower, upper, internalGains, solarGains, tOut, tPrev, previous, step);
      var l := Limit(u.value, lower, upper, previous, fidelity, step);
      && u.Some?
      && r.Ok? == l.Ok?
      && (r.Ok? ==> r.value.energy == l.value)
  {
    ProbeSeparates(c, internalGains, solarGains, tOut, tPrev);
  }

  /** A concrete stale hour: a demand of 2000 W against a 1000 W plant,
      after an hour that delivered -300 W of cooling, reports -300 W as
      written and 1000 W as intended. */
  lemma LimitCounterexample()
    ensures Limit(2000.0, -1000.0, 1000.0, Some(-300.0), AsWritten, 1) == Ok(-300.0)
    ensures Limit(2000.0, -1000.0, 1000.0, Some(-300.0), Intended, 1) == Ok(1000.0)
    ensures Limit(2000.0, -1000.0, 1000.0, None, AsWritten, 0) == Err(UnsetEnergyDemand(0))
  {
  }

  // ---------------------------------------------------------------------
  // The hourly run

  /** A setpoint: one value for every hour, or one value per hour. */
  datatype Setpoint = Fixed(value: real) | Hourly(values: seq<real>)

  function SetpointAt(sp: Setpoint, k: nat): (r: Option<real>)
    ensures r.None? <==> sp.Hourly? && k >= |sp.values|
    ensures sp.Fixed? ==> r == Some(sp.value)
    ensures sp.Hourly? && k < |sp.values| ==> r == Some(sp.values[k])
  {
    match sp
    case Fixed(v) => Some(v)
    case Hourly(vs) => if k < |vs| then Some(vs[k]) else None
  }

  /** The inputs of a run; the plant limits are magnitudes. */
  datatype Inputs = Inputs(
    tOutside: seq<real>,
    solarGains: seq<real>,
    internalGains: seq<real>,
    setHeating: Setpoint,
    setCooling: Setpoint,
    maxPowerHeating: real,
    maxPowerCooling: real,
    timesteps: nat
  )

  /** Every per-hour input covers hour `k`. */
  predicate Covers(inp: Inputs, k: nat)
  {
    && k < |inp.tOutside| && k < |inp.solarGains| && k < |inp.internalGains|
    && SetpointAt(inp.setHeating, k).Some? && SetpointAt(inp.setCooling, k).Some?
  }

  /** Hour `k` of a run: read the hour's inputs, then step with the cooling
      limit negated into a lower bound. */
  function StepAt(c: Config5RC, inp: Inputs, fidelity: Fidelity, k: nat, tPrev: real, previous: Option<real>)
    : (r: Result<StepOutput, SimError>)
    requires WellFormed(c)
    ensures !Covers(inp, k) <==> r == Err(IndexOutOfRange(k))
  {
    if !Covers(inp, k) then Err(IndexOutOfRange(k))
    else
      Step(c, fidelity, SetpointAt(inp.setHeating, k).value, SetpointAt(inp.setCooling, k).value,
           -inp.maxPowerCooling, inp.maxPowerHeating,
           inp.internalGains[k], inp.solarGains[k], inp.tOutside[k], tPrev, previous, k)
  }

  /** The state after some hours: the reported series, the mass temperatures
      from the initial one on, and the last delivered power. */
  datatype Trace = Trace(heating: seq<real>, cooling: seq<real>, tAir: seq<real>, tMass: seq<real>, energy: Option<real>)

  /** The first `n` hours, each starting from the previous hour's new mass
      temperature and delivered power. The cooling series is reported with
      its sign flipped. */
  function Run(c: Config5RC, inp: Inputs, fidelity: Fidelity, n: nat): (r: Result<Trace, SimError>)
    requires WellFormed(c)
    ensures r.Ok? ==>
      && |r.value.heating| == n && |r.value.cooling| == n && |r.value.tAir| == n
      && |r.value.tMass| == n + 1 && r.value.tMass[0] == InitialMass
      && (n == 0 <==> r.value.energy.None?)
  {
    if n == 0 then Ok(Trace([], [], [], [InitialMass], None))
    else
      var t :- Run(c, inp, fidelity, n - 1);
      var s :- StepAt(c, inp, fidelity, n - 1, t.tMass[n - 1], t.energy);
      Ok(Trace(t.heating + [s.heating], t.cooling + [-s.cooling], t.tAir + [s.tAir],
               t.tMass + [s.tmNext], Some(s.energy)))
  }

  /** The whole run: the heating, cooling and air-temperature series. */
  function Solve(c: Config5RC, inp: Inputs, fidelity: Fidelity): (r: Result<(seq<real>, seq<real>, seq<real>), SimError>)
    requires WellFormed(c)
    ensures r.Ok? ==> |r.value.0| == inp.timesteps && |r.value.1| == inp.timesteps && |r.value.2| == inp.timesteps
  {
    var t :- Run(c, inp, fidelity, inp.timesteps);
    Ok((t.heating, t.cooling, t.tAir))
  }

  /** Hour `k` of a run is the step from the `k`-th mass temperature and the
      power delivered in the hour before, and its new mass temperature is
      the next one. */
  lemma {:induction false} RunThreads(c: Config5RC, inp: Inputs, fidelity: Fidelity, n: nat, k: nat)
    requires WellFormed(c)
    requires Run(c, inp, fidelity, n).Ok? && k < n
    ensures Run(c, inp, fidelity, k).Ok?
    ensures var t := Run(c, inp, fidelity, n).value;
      var s := StepAt(c, inp, fidelity, k, t.tMass[k], Run(c, inp, fidelity, k).value.energy);
      && s.Ok?
      && t.heating[k] == s.value.heating
      && t.cooling[k] == -s.value.cooling
      && t.tAir[k] == s.value.tAir
      && t.tMass[k + 1] == s.value.tmNext
    decreases n
  {
    var t := Run(c, inp, fidelity, n).value;
    var t' := Run(c, inp, fidelity, n - 1).value;
    var s := StepAt(c, inp, fidelity, n - 1, t'.tMass[n - 1], t'.energy).value;
    assert t == Trace(t'.heating + [s.heating], t'.cooling + [-s.cooling], t'.tAir + [s.tAir],
                      t'.tMass + [s.tmNext], Some(s.energy));
    if k < n - 1 {
      RunThreads(c, inp, fidelity, n - 1, k);
      assert t.heating[k] == t'.heating[k];
      assert t.cooling[k] == t'.cooling[k];
      assert t.tAir[k] == t'.tAir[k];
      assert t.tMass[k] == t'.tMass[k] && t.tMass[k + 1] == t'.tMass[k + 1];
    }
  }

  /** A run that succeeds never read past the end of its inputs. */
  lemma {:induction false} RunCovers(c: Config5RC, inp: Inputs, fidelity: Fidelity, n: nat)
    requires WellFormed(c)
    requires Run(c, inp, fidelity, n).Ok?
    ensures forall k :: 0 <= k < n ==> Covers(inp, k)
    decreases n
  {
    if n > 0 {
      RunCovers(c, inp, fidelity, n - 1);
    }
  }

  /** An hour of a run with the intended limiting, on inputs that cover it,
      succeeds with demands within the plant limits. */
  lemma StepAtIntendedWithinPlant(c: Config5RC, inp: Inputs, k: nat, tPrev: real, previous: Option<real>)
    requires WellFormed(c) && c.floor_area != 0.0
    requires inp.maxPowerHeating >= 0.0 && inp.maxPowerCooling >= 0.0
    requires Covers(inp, k)
    ensures var r := StepAt(c, inp, Intended, k, tPrev, previous);
      && r.Ok?
      && 0.0 <= r.value.heating <= inp.maxPowerHeating
      && 0.0 <= -r.value.cooling <= inp.maxPowerCooling
  {
    StepIntendedWithinPlant(c, SetpointAt(inp.setHeating, k).value, SetpointAt(inp.setCooling, k).value,
                            -inp.maxPowerCooling, inp.maxPowerHeating,
                            inp.internalGains[k], inp.solarGains[k], inp.tOutside[k], tPrev, previous, k);
  }

  /** With the intended limiting, a non-zero floor area and non-negative
      plant limits, a run over inputs that cover it succeeds, and every
      reported heating and cooling demand lies between zero and the
      corresponding plant limit. */
  lemma {:induction false} RunIntendedWithinPlant(c: Config5RC, inp: Inputs, n: nat)
    requires WellFormed(c) && c.floor_area != 0.0
    requires inp.maxPowerHeating >= 0.0 && inp.maxPowerCooling >= 0.0
    requires forall k :: 0 <= k < n ==> Covers(inp, k)
    ensures Run(c, inp, Intended, n).Ok?
    ensures var t := Run(c, inp, Intended, n).value;
      forall k :: 0 <= k < n ==>
        0.0 <= t.heating[k] <= inp.maxPowerHeating && 0.0 <= t.cooling[k] <= inp.maxPowerCooling
    decreases n
  {
    if n > 0 {
      RunIntendedWithinPlant(c, inp, n - 1);
      var t' := Run(c, inp, Intended, n - 1).value;
      assert Covers(inp, n - 1);
      StepAtIntendedWithinPlant(c, inp, n - 1, t'.tMass[n - 1], t'.energy);
      var s := StepAt(c, inp, Intended, n - 1, t'.tMass[n - 1], t'.energy).value;
      assert Run(c, inp, Intended, n) == Ok(Trace(t'.heating + [s.heating], t'.cooling + [-s.cooling], t'.tAir + [s.tAir],
                                                  t'.tMass + [s.tmNext], Some(s.energy)));
      var t := Run(c, inp, Intended, n).value;
      forall k | 0 <= k < n
        ensures 0.0 <= t.heating[k] <= inp.maxPowerHeating && 0.0 <= t.cooling[k] <= inp.maxPowerCooling
      {
        if k < n - 1 {
          assert t.heating[k] == t'.heating[k] && t.cooling[k] == t'.cooling[k];
        }
      }
    }
  }

  // ---------------------------------------------------------------------
  // Setpoint validation at construction

  /** The smallest value of a non-empty list. */
  function Lowest(vs: seq<real>): (r: real)
    requires |vs| > 0
    ensures r in vs
    ensures forall i :: 0 <= i < |vs| ==> r <= vs[i]
  {
    if |vs| == 1 then vs[0]
    else
      var m := Lowest(vs[..|vs| - 1]);
      assert forall i :: 0 <= i < |vs| - 1 ==> vs[..|vs| - 1][i] == vs[i];
      if vs[|vs| - 1] < m then vs[|vs| - 1] else m
  }

  /** The largest value of a non-empty list. */
  function Highest(vs: seq<real>): (r: real)
    requires |vs| > 0
    ensures r in vs
    ensures forall i :: 0 <= i < |vs| ==> vs[i] <= r
  {
    if |vs| == 1 then vs[0]
    else
      var m := Highest(vs[..|vs| - 1]);
      assert forall i :: 0 <= i < |vs| - 1 ==> vs[..|vs| - 1][i] == vs[i];
      if vs[|vs| - 1] > m then vs[|vs| - 1] else m
  }

  /** The value a setpoint check reads: the smallest or the largest of a
      list, or the fixed value; absent for an empty list. */
  function Extreme(sp: Setpoint, lowest: bool): (r: Option<real>)
    ensures r.None? <==> sp.Hourly? && |sp.values| == 0
    ensures r.Some? ==> forall k: nat :: SetpointAt(sp, k).Some? ==>
      (if lowest then r.value <= SetpointAt(sp, k).value else SetpointAt(sp, k).value <= r.value)
  {
    match sp
    case Fixed(v) => Some(v)
    case Hourly(vs) =>
      if |vs| == 0 then None else Some(if lowest then Lowest(vs) else Highest(vs))
  }

  /** The construction-time check of the heating setpoints: every hour's
      heating ceiling (the heating setpoint itself when none is given) must
      exceed every hour's heating setpoint. The result says whether the
      narrowest gap is below 0.2 K, which only warns. */
  function ValidateSetpoints(setHeating: Setpoint, setHeatingMax: Option<Setpoint>): (r: Result<bool, SimError>)
    ensures var ceiling := if setHeatingMax.Some? then setHeatingMax.value else setHeating;
      r.Ok? <==>
        && Extreme(ceiling, true).Some? && Extreme(setHeating, false).Some?
        && Extreme(ceiling, true).value > Extreme(setHeating, false).value
    ensures var ceiling := if setHeatingMax.Some? then setHeatingMax.value else setHeating;
      r.Ok? ==> (r.value <==> Extreme(ceiling, true).value - Extreme(setHeating, false).value < SetpointGapWarning)
  {
    var ceiling := if setHeatingMax.Some? then setHeatingMax.value else setHeating;
    var down := Extreme(ceiling, true);
    if down.None? then Err(EmptySetpointList)
    else
      var up := Extreme(setHeating, false);
      if up.None? then Err(EmptySetpointList)
      else if !(down.value > up.value) then Err(SetpointsMisordered)
      else Ok(down.value - up.value < SetpointGapWarning)
  }

  /** Accepted setpoints keep every hour's heating setpoint below every
      hour's ceiling. */
  lemma ValidatedSetpointsOrdered(setHeating: Setpoint, setHeatingMax: Setpoint, j: nat, k: nat)
    requires ValidateSetpoints(setHeating, Some(setHeatingMax)).Ok?
    requires SetpointAt(setHeating, j).Some? && SetpointAt(setHeatingMax, k).Some?
    ensures SetpointAt(setHeating, j).value < SetpointAt(setHeatingMax, k).value
  {
  }

  /** Without a ceiling the check compares the heating setpoint with itself
      and so always fails. */
  lemma ValidateWithoutCeilingFails(setHeating: Setpoint)
    ensures ValidateSetpoints(setHeating, None).Err?
  {
    if setHeating.Hourly? && |setHeating.values| > 0 {
      var vs := setHeating.values;
      assert Lowest(vs) <= vs[0] <= Highest(vs);
    }
  }
}
