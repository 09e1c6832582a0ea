/** The 5R1C node network of the simple hourly method (ISO 13790, annex C,
    section C.3): heat-flow split, the Crank–Nicolson mass update and the
    surface and air node temperatures, for a given injected power. */
module Network {
  import opened Envelope

  /** The configurations the node equations can be evaluated for: every
      divisor of the equations is then positive. */
  predicate WellFormed(c: Config5RC)
  {
    && c.h_ve > 0.0 && c.h_tr_is > 0.0 && c.h_tr_ms > 0.0
    && c.h_tr_w >= 0.0 && c.h_tr_em >= 0.0 && c.c_m >= 0.0
    && c.total_internal_area > 0.0
  }

  /** Two conductances in series: the result is below each of them. */
  function Series(a: real, b: real): (r: real)
    requires a > 0.0 && b > 0.0
    ensures 0.0 < r < a && r < b
  {
    SeriesBelow(a, b);
    SeriesBelow(b, a);
    1.0 / (1.0 / a + 1.0 / b)
  }

  /** The series conductance is the product over the sum. */
  lemma SeriesProduct(a: real, b: real)
    requires a > 0.0 && b > 0.0
    ensures Series(a, b) * (a + b) == a * b
  {
    var x, y := 1.0 / a, 1.0 / b;
    assert x * a == 1.0 && y * b == 1.0;
    var s := x + y;
    assert s * (a * b) == a + b;
    var q := 1.0 / s;
    assert q * s == 1.0;
    assert q * (a + b) == q * (s * (a * b));
    assert q * (s * (a * b)) == (q * s) * (a * b);
  }

  lemma SeriesBelow(a: real, b: real)
    requires a > 0.0 && b > 0.0
    ensures 1.0 / a + 1.0 / b > 0.0
    ensures 0.0 < 1.0 / (1.0 / a + 1.0 / b) < a
  {
    var x, y := 1.0 / a, 1.0 / b;
    assert x * a == 1.0 && y > 0.0;
    var s := x + y;
    assert a * s == 1.0 + a * y;
    assert a * y > 0.0;
    var q := 1.0 / s;
    assert q * s == 1.0;
    assert q * (a * s) > q;
    assert q * (a * s) == a * (q * s);
  }

  /** Ventilation and air-to-surface conductances in series (C.6). */
  function H1(c: Config5RC): (r: real)
    requires WellFormed(c)
    ensures 0.0 < r < c.h_ve && r < c.h_tr_is
  {
    Series(c.h_ve, c.h_tr_is)
  }

  /** The former in parallel with the glazing (C.7). */
  function H2(c: Config5RC): (r: real)
    requires WellFormed(c)
    ensures r >= H1(c) > 0.0
  {
    H1(c) + c.h_tr_w
  }

  /** The former in series with the surface-to-mass conductance (C.8). */
  function H3(c: Config5RC): (r: real)
    requires WellFormed(c)
    ensures 0.0 < r < H2(c) && r < c.h_tr_ms
  {
    Series(H2(c), c.h_tr_ms)
  }

  /** Heat flows into the air, surface and mass nodes. */
  datatype Flows = Flows(ia: real, st: real, m: real)

  /** The split of the gains over the three nodes (C.1–C.3); the injected
      power `e` goes to the air node only. */
  function HeatFlows(c: Config5RC, internalGains: real, solarGains: real, e: real): (f: Flows)
    requires WellFormed(c)
    ensures f.ia - e == 0.5 * internalGains
    ensures f.m * c.total_internal_area == c.mass_area * (0.5 * internalGains + solarGains)
    ensures f.st + f.m == (1.0 - c.h_tr_w / (HMs * c.total_internal_area)) * (0.5 * internalGains + solarGains)
  {
    var gains := 0.5 * internalGains + solarGains;
    var massShare := c.mass_area / c.total_internal_area;
    var glazingShare := c.h_tr_w / (HMs * c.total_internal_area);
    SplitSum(massShare, glazingShare, gains);
    MassShare(c.mass_area, c.total_internal_area, gains);
    Flows(0.5 * internalGains + e, (1.0 - massShare - glazingShare) * gains, massShare * gains)
  }

  lemma MassShare(am: real, at: real, g: real)
    requires at != 0.0
    ensures (am / at * g) * at == am * g
  {
    assert (am / at) * at == am;
  }

  lemma SplitSum(m: real, w: real, g: real)
    ensures (1.0 - m - w) * g + m * g == (1.0 - w) * g
  {
  }

  /** Only the air-node flow depends on the injected power, and it moves one
      for one with it. */
  lemma FlowsShift(c: Config5RC, internalGains: real, solarGains: real, e: real, e': real)
    requires WellFormed(c)
    ensures HeatFlows(c, internalGains, solarGains, e).st == HeatFlows(c, internalGains, solarGains, e').st
    ensures HeatFlows(c, internalGains, solarGains, e).m == HeatFlows(c, internalGains, solarGains, e').m
    ensures HeatFlows(c, internalGains, solarGains, e).ia - HeatFlows(c, internalGains, solarGains, e').ia == e - e'
  {
  }

  /** The total heat flow reaching the mass node (C.5), with the supply air
      at the outdoor temperature. */
  function PhiMTot(c: Config5RC, f: Flows, tOut: real): real
    requires WellFormed(c)
  {
    MassFlowFormula(f.m, c.h_tr_em, H1(c), H2(c), H3(c), c.h_tr_w, c.h_ve, f.st, f.ia, tOut)
  }

  function MassFlowFormula(m: real, hem: real, h1: real, h2: real, h3: real, hw: real, hve: real,
                           st: real, ia: real, tOut: real): real
    requires h2 != 0.0 && hve != 0.0
  {
    m + hem * tOut + h3 * (st + hw * tOut + h1 * (ia / hve + tOut)) / h2
  }

  /** The heat capacity of the mass node per hour, in W/K. */
  function Capacity(c: Config5RC): real
  {
    c.c_m / 3600.0
  }

  /** The conductance the mass node loses heat through. */
  function MassLoss(c: Config5RC): real
    requires WellFormed(c)
  {
    H3(c) + c.h_tr_em
  }

  /** The Crank–Nicolson mass update (C.4). */
  function TmNext(c: Config5RC, tPrev: real, phiMTot: real): real
    requires WellFormed(c)
  {
    (tPrev * (Capacity(c) - 0.5 * MassLoss(c)) + phiMTot) / (Capacity(c) + 0.5 * MassLoss(c))
  }

  /** The mass temperature of the hour (C.9). */
  function MeanMass(tNext: real, tPrev: real): real
  {
    (tNext + tPrev) / 2.0
  }

  /** The surface node temperature (C.10). */
  function SurfaceTemp(c: Config5RC, tm: real, f: Flows, tOut: real): real
    requires WellFormed(c)
  {
    SurfaceFormula(c.h_tr_ms, c.h_tr_w, H1(c), c.h_ve, tm, f.st, f.ia, tOut)
  }

  function SurfaceFormula(hms: real, hw: real, h1: real, hve: real, tm: real, st: real, ia: real, tOut: real): real
    requires hve != 0.0 && hms + hw + h1 != 0.0
  {
    (hms * tm + st + hw * tOut + h1 * (tOut + ia / hve)) / (hms + hw + h1)
  }

  /** The air node temperature (C.11). */
  function AirTemp(c: Config5RC, ts: real, f: Flows, tOut: real): real
    requires WellFormed(c)
  {
    AirFormula(c.h_tr_is, c.h_ve, ts, f.ia, tOut)
  }

  function AirFormula(his: real, hve: real, ts: real, ia: real, tOut: real): real
    requires his + hve != 0.0
  {
    (his * ts + hve * tOut + ia) / (his + hve)
  }

  /** The node values of one evaluation of the network. */
  datatype Nodes = Nodes(phiMTot: real, tmNext: real, tm: real, ts: real, tAir: real)

  /** One evaluation of the network for injected power `e`, in the order of
      the source: heat flows, total mass flow, mass update, mean mass,
      surface and air temperatures. */
  function Update(c: Config5RC, e: real, internalGains: real, solarGains: real, tOut: real, tPrev: real): Nodes
    requires WellFormed(c)
  {
    var f := HeatFlows(c, internalGains, solarGains, e);
    var phi := PhiMTot(c, f, tOut);
    var tNext := TmNext(c, tPrev, phi);
    var tm := MeanMass(tNext, tPrev);
    var ts := SurfaceTemp(c, tm, f, tOut);
    Nodes(phi, tNext, tm, ts, AirTemp(c, ts, f, tOut))
  }

  /** The response of a network at rest at 0 °C, with no gains, to one watt
      injected into the air node. */
  function UnitResponse(c: Config5RC): Nodes
    requires WellFormed(c)
  {
    Update(c, 1.0, 0.0, 0.0, 0.0, 0.0)
  }

  /** Over the hour the mass node stores its incoming flow less the loss at
      the mean of the old and new mass temperatures. */
  predicate MassBalanced(cap: real, loss: real, tPrev: real, phi: real, tNext: real)
  {
    cap * (tNext - tPrev) == phi - loss * ((tNext + tPrev) / 2.0)
  }

  /** The flows into the surface node from the mass, the outdoors through the
      glazing, the air node and the gains sum to zero; `x` is the air-node
      flow divided by the ventilation conductance. */
  predicate SurfaceBalanced(hms: real, hw: real, h1: real, tm: real, tOut: real, x: real, st: real, ts: real)
  {
    hms * (tm - ts) + hw * (tOut - ts) + h1 * (tOut + x - ts) + st == 0.0
  }

  /** The flows into the air node from the surface, the supply air and the
      air-node gains sum to zero. */
  predicate AirBalanced(his: real, hve: real, ts: real, tOut: real, ia: real, tAir: real)
  {
    his * (ts - tAir) + hve * (tOut - tAir) + ia == 0.0
  }

  /** The node values of one evaluation are the heat balances of annex C:
      the mass node by Crank–Nicolson, the mean mass temperature as the
      midpoint of the old and new, the surface and air nodes in balance. */
  lemma UpdateBalances(c: Config5RC, e: real, internalGains: real, solarGains: real, tOut: real, tPrev: real)
    requires WellFormed(c)
    ensures var f := HeatFlows(c, internalGains, solarGains, e);
      var n := Update(c, e, internalGains, solarGains, tOut, tPrev);
      && n.phiMTot == PhiMTot(c, f, tOut)
      && MassBalanced(Capacity(c), MassLoss(c), tPrev, n.phiMTot, n.tmNext)
      && n.tm - tPrev == n.tmNext - n.tm
      && SurfaceBalanced(c.h_tr_ms, c.h_tr_w, H1(c), n.tm, tOut, f.ia / c.h_ve, f.st, n.ts)
      && AirBalanced(c.h_tr_is, c.h_ve, n.ts, tOut, f.ia, n.tAir)
  {
    var f := HeatFlows(c, internalGains, solarGains, e);
    var phi := PhiMTot(c, f, tOut);
    var tNext := TmNext(c, tPrev, phi);
    var tm := MeanMass(tNext, tPrev);
    var ts := SurfaceTemp(c, tm, f, tOut);
    assert Update(c, e, internalGains, solarGains, tOut, tPrev) == Nodes(phi, tNext, tm, ts, AirTemp(c, ts, f, tOut));
    MassBalance(Capacity(c), MassLoss(c), tPrev, phi);
    SurfaceBalance(c.h_tr_ms, c.h_tr_w, H1(c), c.h_ve, tm, f.st, f.ia, tOut);
    AirBalance(c.h_tr_is, c.h_ve, ts, f.ia, tOut);
  }

  /** The mass node balance of the unreduced network: over the hour the
      mass stores its own gains plus what flows in from the outdoors through
      H_tr,em and from the surface node through H_tr,ms, each at the mean
      mass temperature. This checks the reductions C.5 to C.8 against the
      network they summarise. */
  lemma MassNodeBalance(c: Config5RC, e: real, internalGains: real, solarGains: real, tOut: real, tPrev: real)
    requires WellFormed(c)
    ensures var f := HeatFlows(c, internalGains, solarGains, e);
      var n := Update(c, e, internalGains, solarGains, tOut, tPrev);
      Capacity(c) * (n.tmNext - tPrev) == f.m + c.h_tr_em * (tOut - n.tm) + c.h_tr_ms * (n.ts - n.tm)
  {
    UpdateBalances(c, e, internalGains, solarGains, tOut, tPrev);
    MassNodeFromBalances(c, HeatFlows(c, internalGains, solarGains, e),
                         Update(c, e, internalGains, solarGains, tOut, tPrev), tOut, tPrev);
  }

  lemma MassNodeFromBalances(c: Config5RC, f: Flows, n: Nodes, tOut: real, tPrev: real)
    requires WellFormed(c)
    requires n.phiMTot == PhiMTot(c, f, tOut)
    requires MassBalanced(Capacity(c), MassLoss(c), tPrev, n.phiMTot, n.tmNext)
    requires n.tm - tPrev == n.tmNext - n.tm
    requires SurfaceBalanced(c.h_tr_ms, c.h_tr_w, H1(c), n.tm, tOut, f.ia / c.h_ve, f.st, n.ts)
    ensures Capacity(c) * (n.tmNext - tPrev) == f.m + c.h_tr_em * (tOut - n.tm) + c.h_tr_ms * (n.ts - n.tm)
  {
    var h1, h2, h3 := H1(c), H2(c), H3(c);
    SeriesProduct(h2, c.h_tr_ms);
    assert h2 == h1 + c.h_tr_w;
    assert MassLoss(c) == h3 + c.h_tr_em;
    assert n.phiMTot == MassFlowFormula(f.m, c.h_tr_em, h1, h2, h3, c.h_tr_w, c.h_ve, f.st, f.ia, tOut);
    ReducedMassNode(Capacity(c), c.h_tr_em, c.h_tr_ms, c.h_tr_w, c.h_ve, h1, h2, h3, f.m, f.st, f.ia,
                    tOut, tPrev, n.tmNext, n.tm, n.ts, n.phiMTot);
  }

  /** The unreduced mass balance from the reduced one, for plain numbers. */
  lemma ReducedMassNode(cap: real, hem: real, hms: real, hw: real, hve: real, h1: real, h2: real, h3: real,
                        m: real, st: real, ia: real, tOut: real, tPrev: real,
                        tNext: real, tm: real, ts: real, phi: real)
    requires h2 == h1 + hw && h2 > 0.0 && hms > 0.0 && hve > 0.0
    requires h3 * (h2 + hms) == h2 * hms
    requires phi == MassFlowFormula(m, hem, h1, h2, h3, hw, hve, st, ia, tOut)
    requires MassBalanced(cap, h3 + hem, tPrev, phi, tNext)
    requires tm - tPrev == tNext - tm
    requires SurfaceBalanced(hms, hw, h1, tm, tOut, ia / hve, st, ts)
    ensures cap * (tNext - tPrev) == m + hem * (tOut - tm) + hms * (ts - tm)
  {
    var big := st + hw * tOut + h1 * (ia / hve + tOut);
    SurfaceSolved(hms, hw, h1, tm, tOut, ia / hve, st, ts);
    ReducedFlow(h2, h3, hms, big, tm, ts);
    MassFromReduced(cap, hem, h3, m, tOut, tPrev, tNext, tm, phi, h3 * big / h2, hms * (ts - tm));
  }

  lemma SurfaceSolved(hms: real, hw: real, h1: real, tm: real, tOut: real, x: real, st: real, ts: real)
    requires SurfaceBalanced(hms, hw, h1, tm, tOut, x, st, ts)
    ensures ts * ((h1 + hw) + hms) == hms * tm + (st + hw * tOut + h1 * (x + tOut))
  {
  }

  /** The surface branch seen from the mass node: H_3 times the gap between
      the reduced source temperature and the mass equals H_tr,ms times the
      surface-to-mass gap. */
  lemma ReducedFlow(h2: real, h3: real, hms: real, big: real, tm: real, ts: real)
    requires h2 > 0.0 && hms > 0.0
    requires h3 * (h2 + hms) == h2 * hms
    requires ts * (h2 + hms) == hms * tm + big
    ensures h3 * big / h2 - h3 * tm == hms * (ts - tm)
  {
    var q := big / h2;
    assert q * h2 == big;
    assert h3 * big / h2 == h3 * q;
    var lhs, rhs := h3 * (q - tm), hms * (ts - tm);
    assert lhs * (h2 + hms) == (h3 * (h2 + hms)) * (q - tm);
    assert lhs * (h2 + hms) == hms * (q * h2 - h2 * tm);
    assert rhs * (h2 + hms) == hms * (ts * (h2 + hms) - tm * (h2 + hms));
    CancelFactor(lhs, rhs, h2 + hms);
  }

  lemma MassFromReduced(cap: real, hem: real, h3: real, m: real, tOut: real, tPrev: real,
                        tNext: real, tm: real, phi: real, p: real, surface: real)
    requires phi == m + hem * tOut + p
    requires p - h3 * tm == surface
    requires MassBalanced(cap, h3 + hem, tPrev, phi, tNext)
    requires tm - tPrev == tNext - tm
    ensures cap * (tNext - tPrev) == m + hem * (tOut - tm) + surface
  {
    assert (tNext + tPrev) / 2.0 == tm;
  }

  lemma CancelFactor(x: real, y: real, k: real)
    requires k != 0.0 && x * k == y * k
    ensures x == y
  {
    assert (x - y) * k == 0.0;
  }

  lemma MassBalance(cap: real, loss: real, tPrev: real, phi: real)
    requires cap + 0.5 * loss > 0.0
    ensures MassBalanced(cap, loss, tPrev, phi, (tPrev * (cap - 0.5 * loss) + phi) / (cap + 0.5 * loss))
  {
    var d := cap + 0.5 * loss;
    var r := (tPrev * (cap - 0.5 * loss) + phi) / d;
    DivTimes(tPrev * (cap - 0.5 * loss) + phi, d);
    CrankNicolsonBalance(cap, loss, tPrev, phi, r);
  }

  lemma CrankNicolsonBalance(cap: real, loss: real, tPrev: real, phi: real, r: real)
    requires r * (cap + 0.5 * loss) == tPrev * (cap - 0.5 * loss) + phi
    ensures MassBalanced(cap, loss, tPrev, phi, r)
  {
  }

  lemma DivTimes(n: real, d: real)
    requires d != 0.0
    ensures (n / d) * d == n
  {
  }

  lemma SurfaceBalance(hms: real, hw: real, h1: real, hve: real, tm: real, st: real, ia: real, tOut: real)
    requires hve != 0.0 && hms + hw + h1 != 0.0
    ensures SurfaceBalanced(hms, hw, h1, tm, tOut, ia / hve, st, SurfaceFormula(hms, hw, h1, hve, tm, st, ia, tOut))
  {
    var x := ia / hve;
    DivTimes(hms * tm + st + hw * tOut + h1 * (tOut + x), hms + hw + h1);
    SurfaceLinear(hms, hw, h1, tm, tOut, x, st, SurfaceFormula(hms, hw, h1, hve, tm, st, ia, tOut));
  }

  lemma SurfaceLinear(hms: real, hw: real, h1: real, tm: real, tOut: real, x: real, st: real, r: real)
    requires r * (hms + hw + h1) == hms * tm + st + hw * tOut + h1 * (tOut + x)
    ensures SurfaceBalanced(hms, hw, h1, tm, tOut, x, st, r)
  {
  }

  lemma AirBalance(his: real, hve: real, ts: real, ia: real, tOut: real)
    requires his + hve != 0.0
    ensures AirBalanced(his, hve, ts, tOut, ia, AirFormula(his, hve, ts, ia, tOut))
  {
    DivTimes(his * ts + hve * tOut + ia, his + hve);
  }

  /** A mass temperature at which the mass node's losses balance its
      incoming flow is kept. */
  lemma StationaryMass(c: Config5RC, tPrev: real, phiMTot: real)
    requires WellFormed(c)
    requires phiMTot == MassLoss(c) * tPrev
    ensures TmNext(c, tPrev, phiMTot) == tPrev
  {
    var r := TmNext(c, tPrev, phiMTot);
    var d := Capacity(c) + 0.5 * MassLoss(c);
    assert d > 0.0;
    MassBalance(Capacity(c), MassLoss(c), tPrev, phiMTot);
    StationaryBalance(Capacity(c), MassLoss(c), tPrev, r);
  }

  lemma StationaryBalance(cap: real, loss: real, tPrev: real, r: real)
    requires cap + 0.5 * loss > 0.0
    requires MassBalanced(cap, loss, tPrev, loss * tPrev, r)
    ensures r == tPrev
  {
    assert (r - tPrev) * (cap + 0.5 * loss) == 0.0;
  }

  // ---------------------------------------------------------------------
  // The network is affine in the injected power

  /** `x1` is `x0` plus `e` times the unit response `unit`. */
  predicate Responds(x1: real, x0: real, e: real, unit: real)
  {
    x1 == x0 + e * unit
  }

  lemma MulShift(a: real, x1: real, x0: real, e: real, xu: real)
    requires x1 - x0 == e * xu
    ensures a * x1 - a * x0 == e * (a * xu)
  {
    assert a * x1 - a * x0 == a * (x1 - x0);
  }

  lemma DivShift(x1: real, x0: real, e: real, xu: real, d: real)
    requires d != 0.0
    requires x1 - x0 == e * xu
    ensures x1 / d - x0 / d == e * (xu / d)
  {
    assert x1 / d - x0 / d == (x1 - x0) / d;
  }

  /** The part of the total mass flow that reaches it through the surface
      node moves with the air-node flow. */
  lemma InnerShift(h1: real, hw: real, hve: real, st: real, ia1: real, ia0: real, tOut: real, e: real)
    requires hve != 0.0
    requires ia1 - ia0 == e
    ensures Responds(st + hw * tOut + h1 * (ia1 / hve + tOut), st + hw * tOut + h1 * (ia0 / hve + tOut),
                     e, 0.0 + hw * 0.0 + h1 * (1.0 / hve + 0.0))
  {
    DivShift(ia1, ia0, e, 1.0, hve);
    MulShift(h1, ia1 / hve + tOut, ia0 / hve + tOut, e, 1.0 / hve + 0.0);
  }

  /** The total mass flow moves with the air-node flow. */
  lemma MassFlowShift(m: real, hem: real, h1: real, h2: real, h3: real, hw: real, hve: real,
                      st: real, ia1: real, ia0: real, tOut: real, e: real)
    requires h2 != 0.0 && hve != 0.0
    requires ia1 - ia0 == e
    ensures Responds(MassFlowFormula(m, hem, h1, h2, h3, hw, hve, st, ia1, tOut),
                     MassFlowFormula(m, hem, h1, h2, h3, hw, hve, st, ia0, tOut),
                     e, MassFlowFormula(0.0, hem, h1, h2, h3, hw, hve, 0.0, 1.0, 0.0))
  {
    var i1, i0 := st + hw * tOut + h1 * (ia1 / hve + tOut), st + hw * tOut + h1 * (ia0 / hve + tOut);
    var iu := 0.0 + hw * 0.0 + h1 * (1.0 / hve + 0.0);
    InnerShift(h1, hw, hve, st, ia1, ia0, tOut, e);
    MulShift(h3, i1, i0, e, iu);
    DivShift(h3 * i1, h3 * i0, e, h3 * iu, h2);
    OuterShift(m + hem * tOut, h3 * i1 / h2, h3 * i0 / h2, e, h3 * iu / h2);
  }

  lemma OuterShift(base: real, x1: real, x0: real, e: real, xu: real)
    requires x1 - x0 == e * xu
    ensures Responds(base + x1, base + x0, e, xu)
  {
  }

  /** The new mass temperature moves with the total mass flow. */
  lemma TmNextShift(c: Config5RC, tPrev: real, p1: real, p0: real, pu: real, e: real)
    requires WellFormed(c)
    requires Responds(p1, p0, e, pu)
    ensures Responds(TmNext(c, tPrev, p1), TmNext(c, tPrev, p0), e, TmNext(c, 0.0, pu))
  {
    var d := Capacity(c) + 0.5 * MassLoss(c);
    var k := tPrev * (Capacity(c) - 0.5 * MassLoss(c));
    assert d > 0.0;
    assert (k + p1) - (k + p0) == e * (0.0 * (Capacity(c) - 0.5 * MassLoss(c)) + pu);
    DivShift(k + p1, k + p0, e, 0.0 * (Capacity(c) - 0.5 * MassLoss(c)) + pu, d);
  }

  /** The surface temperature moves with the mass temperature and the air-node flow. */
  lemma SurfaceShift(hms: real, hw: real, h1: real, hve: real, tm1: real, tm0: real, tmu: real,
                     st: real, ia1: real, ia0: real, tOut: real, e: real)
    requires hve != 0.0 && hms + hw + h1 != 0.0
    requires Responds(tm1, tm0, e, tmu) && ia1 - ia0 == e
    ensures Responds(SurfaceFormula(hms, hw, h1, hve, tm1, st, ia1, tOut), SurfaceFormula(hms, hw, h1, hve, tm0, st, ia0, tOut),
                     e, SurfaceFormula(hms, hw, h1, hve, tmu, 0.0, 1.0, 0.0))
  {
    var nu := hms * tmu + 0.0 + hw * 0.0 + h1 * (0.0 + 1.0 / hve);
    MulShift(hms, tm1, tm0, e, tmu);
    DivShift(ia1, ia0, e, 1.0, hve);
    MulShift(h1, tOut + ia1 / hve, tOut + ia0 / hve, e, 0.0 + 1.0 / hve);
    DivShift(hms * tm1 + st + hw * tOut + h1 * (tOut + ia1 / hve),
             hms * tm0 + st + hw * tOut + h1 * (tOut + ia0 / hve), e, nu, hms + hw + h1);
  }

  /** The air temperature moves with the surface temperature and the air-node flow. */
  lemma AirShift(his: real, hve: real, ts1: real, ts0: real, tsu: real, ia1: real, ia0: real, tOut: real, e: real)
    requires his + hve != 0.0
    requires Responds(ts1, ts0, e, tsu) && ia1 - ia0 == e
    ensures Responds(AirFormula(his, hve, ts1, ia1, tOut), AirFormula(his, hve, ts0, ia0, tOut),
                     e, AirFormula(his, hve, tsu, 1.0, 0.0))
  {
    MulShift(his, ts1, ts0, e, tsu);
    DivShift(his * ts1 + hve * tOut + ia1, his * ts0 + hve * tOut + ia0, e, his * tsu + hve * 0.0 + 1.0, his + hve);
  }

  lemma MeanShift(m1: real, m0: real, mu: real, e: real, tPrev: real)
    requires Responds(m1, m0, e, mu)
    ensures Responds(MeanMass(m1, tPrev), MeanMass(m0, tPrev), e, MeanMass(mu, 0.0))
  {
  }

  /** Every node value is affine in the injected power: it is the value with
      no injection plus the power times the unit response. */
  lemma UpdateAffine(c: Config5RC, e: real, internalGains: real, solarGains: real, tOut: real, tPrev: real)
    requires WellFormed(c)
    ensures var n1 := Update(c, e, internalGains, solarGains, tOut, tPrev);
      var n0 := Update(c, 0.0, internalGains, solarGains, tOut, tPrev);
      && Responds(n1.tmNext, n0.tmNext, e, UnitResponse(c).tmNext)
      && Responds(n1.tAir, n0.tAir, e, UnitResponse(c).tAir)
  {
    var f1 := HeatFlows(c, internalGains, solarGains, e);
    var f0 := HeatFlows(c, internalGains, solarGains, 0.0);
    var fu := HeatFlows(c, 0.0, 0.0, 1.0);
    FlowsShift(c, internalGains, solarGains, e, 0.0);
    assert fu == Flows(1.0, 0.0, 0.0);
    var h1, h2, h3 := H1(c), H2(c), H3(c);
    var p1 := MassFlowFormula(f0.m, c.h_tr_em, h1, h2, h3, c.h_tr_w, c.h_ve, f0.st, f1.ia, tOut);
    var p0 := MassFlowFormula(f0.m, c.h_tr_em, h1, h2, h3, c.h_tr_w, c.h_ve, f0.st, f0.ia, tOut);
    var pu := MassFlowFormula(0.0, c.h_tr_em, h1, h2, h3, c.h_tr_w, c.h_ve, 0.0, 1.0, 0.0);
    MassFlowShift(f0.m, c.h_tr_em, h1, h2, h3, c.h_tr_w, c.h_ve, f0.st, f1.ia, f0.ia, tOut, e);
    var m1, m0, mu := TmNext(c, tPrev, p1), TmNext(c, tPrev, p0), TmNext(c, 0.0, pu);
    TmNextShift(c, tPrev, p1, p0, pu, e);
    var a1, a0, au := MeanMass(m1, tPrev), MeanMass(m0, tPrev), MeanMass(mu, 0.0);
    MeanShift(m1, m0, mu, e, tPrev);
    var s1 := SurfaceFormula(c.h_tr_ms, c.h_tr_w, h1, c.h_ve, a1, f0.st, f1.ia, tOut);
    var s0 := SurfaceFormula(c.h_tr_ms, c.h_tr_w, h1, c.h_ve, a0, f0.st, f0.ia, tOut);
    var su := SurfaceFormula(c.h_tr_ms, c.h_tr_w, h1, c.h_ve, au, 0.0, 1.0, 0.0);
    SurfaceShift(c.h_tr_ms, c.h_tr_w, h1, c.h_ve, a1, a0, au, f0.st, f1.ia, f0.ia, tOut, e);
    var t1 := AirFormula(c.h_tr_is, c.h_ve, s1, f1.ia, tOut);
    var t0 := AirFormula(c.h_tr_is, c.h_ve, s0, f0.ia, tOut);
    var tu := AirFormula(c.h_tr_is, c.h_ve, su, 1.0, 0.0);
    AirShift(c.h_tr_is, c.h_ve, s1, s0, su, f1.ia, f0.ia, tOut, e);
    assert Update(c, e, internalGains, solarGains, tOut, tPrev) == Nodes(p1, m1, a1, s1, t1);
    assert Update(c, 0.0, internalGains, solarGains, tOut, tPrev) == Nodes(p0, m0, a0, s0, t0);
    assert UnitResponse(c) == Nodes(pu, mu, au, su, tu);
  }

  /** A positive injection warms every node of a network at rest. */
  lemma UnitResponsePositive(c: Config5RC)
    requires WellFormed(c)
    ensures UnitResponse(c).tmNext > 0.0
    ensures UnitResponse(c).tAir > 0.0
  {
    var u := UnitResponse(c);
    var fu := HeatFlows(c, 0.0, 0.0, 1.0);
    assert fu == Flows(1.0, 0.0, 0.0);
    UnitMassFlowPositive(c.h_tr_em, H1(c), H2(c), H3(c), c.h_tr_w, c.h_ve);
    var d := Capacity(c) + 0.5 * MassLoss(c);
    assert d > 0.0;
    assert u.tmNext == (0.0 * (Capacity(c) - 0.5 * MassLoss(c)) + u.phiMTot) / d;
    PositiveQuotient(u.phiMTot, d);
    UnitSurfacePositive(c.h_tr_ms, c.h_tr_w, H1(c), c.h_ve, u.tm);
    UnitAirPositive(c.h_tr_is, c.h_ve, u.ts);
  }

  lemma UnitMassFlowPositive(hem: real, h1: real, h2: real, h3: real, hw: real, hve: real)
    requires h1 > 0.0 && h2 > 0.0 && h3 > 0.0 && hve > 0.0
    ensures MassFlowFormula(0.0, hem, h1, h2, h3, hw, hve, 0.0, 1.0, 0.0) > 0.0
  {
    var inner := 0.0 + hw * 0.0 + h1 * (1.0 / hve + 0.0);
    PositiveQuotient(1.0, hve);
    MulPositive(h1, 1.0 / hve);
    MulPositive(h3, inner);
    PositiveQuotient(h3 * inner, h2);
  }

  lemma UnitSurfacePositive(hms: real, hw: real, h1: real, hve: real, tm: real)
    requires hms > 0.0 && hw >= 0.0 && h1 > 0.0 && hve > 0.0 && tm > 0.0
    ensures SurfaceFormula(hms, hw, h1, hve, tm, 0.0, 1.0, 0.0) > 0.0
  {
    PositiveQuotient(1.0, hve);
    MulPositive(h1, 0.0 + 1.0 / hve);
    MulPositive(hms, tm);
    PositiveQuotient(hms * tm + 0.0 + hw * 0.0 + h1 * (0.0 + 1.0 / hve), hms + hw + h1);
  }

  lemma UnitAirPositive(his: real, hve: real, ts: real)
    requires his > 0.0 && hve > 0.0 && ts > 0.0
    ensures AirFormula(his, hve, ts, 1.0, 0.0) > 0.0
  {
    MulPositive(his, ts);
    PositiveQuotient(his * ts + hve * 0.0 + 1.0, his + hve);
  }

  lemma PositiveQuotient(x: real, y: real)
    requires x > 0.0 && y > 0.0
    ensures x / y > 0.0
  {
  }
}
