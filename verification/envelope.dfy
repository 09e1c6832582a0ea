/** Derivation of the 5R1C envelope parameters from a reference-building
    catalog row: floor-area scaling of the element areas, the transmission
    and ventilation conductances and the building-class dependent thermal
    mass (ISO 13790, sections 7.2.2.2, 9.3.1 and 12.3.1.2). */
module Envelope {
  import opened Common

  /** A wall, roof or floor element: area, U-value and reduction factor b. */
  datatype Opaque = Opaque(area: real, u: real, b: real)

  /** A door: area and U-value; doors carry no reduction factor. */
  datatype Door = Door(area: real, u: real)

  /** A window: area, U-value and total solar energy transmittance. */
  datatype Window = Window(area: real, u: real, g: real)

  /** Window areas per orientation. */
  datatype Orientations = Orientations(horizontal: real, east: real, south: real, west: real, north: real)

  /** The columns of a catalog row the derivation reads (the catalog holds
      two roofs, two floors, three walls, one door and two windows). */
  datatype TabulaRow = TabulaRow(
    referenceArea: real,          // A_C_Ref
    roofs: seq<Opaque>,
    floors: seq<Opaque>,
    walls: seq<Opaque>,
    doors: seq<Door>,
    windows: seq<Window>,
    windowSpecific: Orientations,
    deltaU: real,                 // delta_U_ThermalBridging
    hVentilation: real,           // h_Ventilation
    nAirUse: real,
    nAirInfiltration: real,
    roomHeight: real              // h_room
  )

  /** The building's element data after floor-area scaling. */
  datatype Geometry = Geometry(
    floorArea: real,
    ratio: real,
    roofs: seq<Opaque>,
    floors: seq<Opaque>,
    walls: seq<Opaque>,
    doors: seq<Door>,
    windows: seq<Window>,
    windowSpecific: Orientations,
    deltaU: real,
    heatTransferCoefficientVentilation: real,
    totalAirChangeRate: real,
    roomHeight: real
  )

  /** The resulting 5R1C configuration. Its fields keep the attribute names
      of the source's configuration object, which the simulator reads. */
  datatype Config5RC = Config5RC(
    total_internal_area: real,
    h_ve: real,
    h_tr_w: real,
    h_tr_em: real,
    h_tr_is: real,
    mass_area: real,
    h_tr_ms: real,
    c_m: real,
    floor_area: real,
    heat_transfer_coefficient_ventilation: real,
    total_air_change_rate: real
  )

  datatype EnvelopeError =
    | ZeroReferenceArea        // division by a zero reference floor area
    | UnknownBuildingClass(cls: string)

  /** The outcome of comparing a requested floor area with the reference:
      the floor area used, the scale ratio and the two advisories. */
  datatype FloorRatio = FloorRatio(floorArea: real, ratio: real, experimental: bool, farOff: bool)

  // ---------------------------------------------------------------------
  // Floor-area ratio and area scaling

  /** Without a requested area the reference is used unscaled; otherwise the
      ratio is requested / reference, and the second advisory fires when it
      leaves the band [0.9, 1.1]. */
  function FloorAreaRatio(requested: Option<real>, reference: real): (r: Result<FloorRatio, EnvelopeError>)
    ensures r.Err? <==> requested.Some? && reference == 0.0
    ensures requested.None? ==> r == Ok(FloorRatio(reference, 1.0, false, false))
    ensures requested.Some? && r.Ok? ==>
      && r.value.floorArea == requested.value
      && r.value.ratio * reference == requested.value
      && r.value.experimental
      && (r.value.farOff <==> r.value.ratio < 0.9 || r.value.ratio > 1.1)
  {
    match requested
    case None => Ok(FloorRatio(reference, 1.0, false, false))
    case Some(f) =>
      if reference == 0.0 then Err(ZeroReferenceArea)
      else
        var ratio := f / reference;
        Ok(FloorRatio(f, ratio, true, 0.9 > ratio || 1.1 < ratio))
  }

  /** For a positive reference area, the far-off advisory fires exactly when
      the requested area deviates from the reference by more than ten per cent. */
  lemma FarOffMeansTenPercent(f: real, reference: real)
    requires reference > 0.0
    ensures FloorAreaRatio(Some(f), reference).Ok?
    ensures FloorAreaRatio(Some(f), reference).value.farOff
      <==> f < 0.9 * reference || f > 1.1 * reference
  {
    var ratio := f / reference;
    assert f == ratio * reference;
    if ratio < 0.9 {
      assert ratio * reference < 0.9 * reference;
    }
    if ratio > 1.1 {
      assert ratio * reference > 1.1 * reference;
    }
    if f < 0.9 * reference {
      assert ratio < 0.9;
    }
    if f > 1.1 * reference {
      assert ratio > 1.1;
    }
  }

  function ScaleOpaque(es: seq<Opaque>, ratio: real): (r: seq<Opaque>)
    ensures |r| == |es|
  {
    seq(|es|, i requires 0 <= i < |es| => es[i].(area := es[i].area * ratio))
  }

  function ScaleDoors(ds: seq<Door>, ratio: real): (r: seq<Door>)
    ensures |r| == |ds|
  {
    seq(|ds|, i requires 0 <= i < |ds| => ds[i].(area := ds[i].area * ratio))
  }

  function ScaleWindows(ws: seq<Window>, ratio: real): (r: seq<Window>)
    ensures |r| == |ws|
  {
    seq(|ws|, i requires 0 <= i < |ws| => ws[i].(area := ws[i].area * ratio))
  }

  function ScaleOrientations(o: Orientations, ratio: real): Orientations
  {
    Orientations(o.horizontal * ratio, o.east * ratio, o.south * ratio, o.west * ratio, o.north * ratio)
  }

  /** The row's element data with every absolute area multiplied by `ratio`. */
  function ScaleRow(row: TabulaRow, floorArea: real, ratio: real): Geometry
  {
    Geometry(
      floorArea, ratio,
      ScaleOpaque(row.roofs, ratio),
      ScaleOpaque(row.floors, ratio),
      ScaleOpaque(row.walls, ratio),
      ScaleDoors(row.doors, ratio),
      ScaleWindows(row.windows, ratio),
      ScaleOrientations(row.windowSpecific, ratio),
      row.deltaU,
      row.hVentilation,
      row.nAirUse + row.nAirInfiltration,
      row.roomHeight)
  }

  /** Reads a catalog row for a requested floor area, scaling it by the
      floor-area ratio. */
  function LoadGeometry(row: TabulaRow, requested: Option<real>): (r: Result<Geometry, EnvelopeError>)
    ensures r.Err? <==> requested.Some? && row.referenceArea == 0.0
    ensures r.Ok? ==> r.value.ratio * row.referenceArea == r.value.floorArea
    ensures r.Ok? && requested.None? ==> r.value.floorArea == row.referenceArea && r.value.ratio == 1.0
    ensures r.Ok? && requested.Some? ==> r.value.floorArea == requested.value
  {
    var fr :- FloorAreaRatio(requested, row.referenceArea);
    Ok(ScaleRow(row, fr.floorArea, fr.ratio))
  }

  /** Every absolute area read from the row is the row's value times the
      ratio; U-values, b-values, g-values, the bridging surcharge and the
      ventilation data are copied unscaled. */
  lemma LoadGeometryScalesAreas(row: TabulaRow, requested: Option<real>)
    requires LoadGeometry(row, requested).Ok?
    ensures var g := LoadGeometry(row, requested).value;
      AreasScaled(row, g, g.ratio) && OthersCopied(row, g)
  {
    var g := LoadGeometry(row, requested).value;
    ScaleRowAreas(row, g.floorArea, g.ratio);
  }

  lemma ScaleRowAreas(row: TabulaRow, f: real, ratio: real)
    ensures AreasScaled(row, ScaleRow(row, f, ratio), ratio)
    ensures OthersCopied(row, ScaleRow(row, f, ratio))
  {
  }

  /** Every absolute area of `g` is the row's area times `ratio`. */
  ghost predicate AreasScaled(row: TabulaRow, g: Geometry, ratio: real)
  {
    && |g.roofs| == |row.roofs| && |g.floors| == |row.floors| && |g.walls| == |row.walls|
    && |g.doors| == |row.doors| && |g.windows| == |row.windows|
    && (forall i :: 0 <= i < |row.roofs| ==> g.roofs[i].area == row.roofs[i].area * ratio)
    && (forall i :: 0 <= i < |row.floors| ==> g.floors[i].area == row.floors[i].area * ratio)
    && (forall i :: 0 <= i < |row.walls| ==> g.walls[i].area == row.walls[i].area * ratio)
    && (forall i :: 0 <= i < |row.doors| ==> g.doors[i].area == row.doors[i].area * ratio)
    && (forall i :: 0 <= i < |row.windows| ==> g.windows[i].area == row.windows[i].area * ratio)
    && g.windowSpecific.horizontal == row.windowSpecific.horizontal * ratio
    && g.windowSpecific.east == row.windowSpecific.east * ratio
    && g.windowSpecific.south == row.windowSpecific.south * ratio
    && g.windowSpecific.west == row.windowSpecific.west * ratio
    && g.windowSpecific.north == row.windowSpecific.north * ratio
  }

  /** U-values, b-values, g-values, the bridging surcharge and the
      ventilation data are copied unscaled. */
  ghost predicate OthersCopied(row: TabulaRow, g: Geometry)
  {
    && |g.roofs| == |row.roofs| && |g.floors| == |row.floors| && |g.walls| == |row.walls|
    && |g.doors| == |row.doors| && |g.windows| == |row.windows|
    && (forall i :: 0 <= i < |row.roofs| ==> g.roofs[i].u == row.roofs[i].u && g.roofs[i].b == row.roofs[i].b)
    && (forall i :: 0 <= i < |row.floors| ==> g.floors[i].u == row.floors[i].u && g.floors[i].b == row.floors[i].b)
    && (forall i :: 0 <= i < |row.walls| ==> g.walls[i].u == row.walls[i].u && g.walls[i].b == row.walls[i].b)
    && (forall i :: 0 <= i < |row.doors| ==> g.doors[i].u == row.doors[i].u)
    && (forall i :: 0 <= i < |row.windows| ==> g.windows[i].u == row.windows[i].u && g.windows[i].g == row.windows[i].g)
    && g.deltaU == row.deltaU
    && g.heatTransferCoefficientVentilation == row.hVentilation
    && g.totalAirChangeRate == row.nAirUse + row.nAirInfiltration
    && g.roomHeight == row.roomHeight
  }

  // ---------------------------------------------------------------------
  // Transmission conductances

  /** Σ a·u·b over opaque elements. */
  function OpaqueTransmission(es: seq<Opaque>): real
  {
    if |es| == 0 then 0.0
    else OpaqueTransmission(es[..|es| - 1]) + es[|es| - 1].area * es[|es| - 1].u * es[|es| - 1].b
  }

  function OpaqueArea(es: seq<Opaque>): real
  {
    if |es| == 0 then 0.0 else OpaqueArea(es[..|es| - 1]) + es[|es| - 1].area
  }

  /** Σ a·u over doors. */
  function DoorTransmission(ds: seq<Door>): real
  {
    if |ds| == 0 then 0.0 else DoorTransmission(ds[..|ds| - 1]) + ds[|ds| - 1].area * ds[|ds| - 1].u
  }

  function DoorArea(ds: seq<Door>): real
  {
    if |ds| == 0 then 0.0 else DoorArea(ds[..|ds| - 1]) + ds[|ds| - 1].area
  }

  /** Σ a·u over windows. */
  function WindowTransmission(ws: seq<Window>): real
  {
    if |ws| == 0 then 0.0 else WindowTransmission(ws[..|ws| - 1]) + ws[|ws| - 1].area * ws[|ws| - 1].u
  }

  function WindowArea(ws: seq<Window>): real
  {
    if |ws| == 0 then 0.0 else WindowArea(ws[..|ws| - 1]) + ws[|ws| - 1].area
  }

  /** The window-area accumulator of the source: it starts at zero and is
      multiplied by each window area. */
  function MultipliedWindowArea(ws: seq<Window>): real
  {
    if |ws| == 0 then 0.0 else MultipliedWindowArea(ws[..|ws| - 1]) * ws[|ws| - 1].area
  }

  /** A door as an opaque element: doors carry no reduction factor, that is b = 1. */
  function DoorAsOpaque(d: Door): Opaque
  {
    Opaque(d.area, d.u, 1.0)
  }

  function DoorsAsOpaque(ds: seq<Door>): (r: seq<Opaque>)
    ensures |r| == |ds|
  {
    seq(|ds|, i requires 0 <= i < |ds| => DoorAsOpaque(ds[i]))
  }

  /** The opaque envelope in the order the source visits it: walls, roofs,
      floors, then doors. */
  function OpaqueEnvelope(walls: seq<Opaque>, roofs: seq<Opaque>, floors: seq<Opaque>, doors: seq<Door>): seq<Opaque>
  {
    walls + roofs + floors + DoorsAsOpaque(doors)
  }

  function GeometryEnvelope(g: Geometry): seq<Opaque>
  {
    OpaqueEnvelope(g.walls, g.roofs, g.floors, g.doors)
  }

  /** The total opaque exterior area that the bridging surcharge applies to. */
  function ExternalArea(g: Geometry): real
  {
    OpaqueArea(GeometryEnvelope(g))
  }

  /** Conductance of opaque elements: Σ a·u·b plus the bridging surcharge
      on their total area. */
  function Conductance(es: seq<Opaque>, deltaU: real): real
  {
    OpaqueTransmission(es) + deltaU * OpaqueArea(es)
  }

  /** Conductance of the opaque envelope of a building. */
  function HTrEm(g: Geometry): real
  {
    Conductance(GeometryEnvelope(g), g.deltaU)
  }

  /** Conductance through the glazing. As written the bridging term is
      multiplied by the product accumulator; as intended by the window area. */
  function HTrW(ws: seq<Window>, deltaU: real, fidelity: Fidelity): real
  {
    match fidelity
    case AsWritten => WindowTransmission(ws) + deltaU * MultipliedWindowArea(ws)
    case Intended => WindowTransmission(ws) + deltaU * WindowArea(ws)
  }

  /** The product accumulator never leaves zero. */
  lemma {:induction false} MultipliedWindowAreaIsZero(ws: seq<Window>)
    ensures MultipliedWindowArea(ws) == 0.0
    decreases |ws|
  {
    if |ws| > 0 {
      MultipliedWindowAreaIsZero(ws[..|ws| - 1]);
    }
  }

  /** As written, the glazing conductance carries no bridging surcharge at
      all, whatever the surcharge and the window areas. */
  lemma HTrWAsWrittenDropsBridging(ws: seq<Window>, deltaU: real)
    ensures HTrW(ws, deltaU, AsWritten) == WindowTransmission(ws)
  {
    MultipliedWindowAreaIsZero(ws);
  }

  /** One window of 1 m² with U = 1 and a surcharge of 0.1 W/(m²K): the code
      as written yields 1.0 W/K where the surcharge would give 1.1 W/K. */
  lemma HTrWCounterexample()
    ensures HTrW([Window(1.0, 1.0, 0.5)], 0.1, AsWritten) == 1.0
    ensures HTrW([Window(1.0, 1.0, 0.5)], 0.1, Intended) == 1.1
  {
    var ws := [Window(1.0, 1.0, 0.5)];
    assert ws[..0] == [];
  }

  /** As intended, the glazing conductance exceeds the bare Σ a·u by the
      surcharge times the total window area, which is the area of the
      windows, each counted once. */
  lemma {:induction false} HTrWIntendedSurcharge(ws: seq<Window>, deltaU: real)
    requires deltaU >= 0.0
    requires forall i :: 0 <= i < |ws| ==> ws[i].area >= 0.0
    ensures HTrW(ws, deltaU, Intended) - WindowTransmission(ws) == deltaU * WindowArea(ws)
    ensures WindowArea(ws) >= 0.0
    ensures HTrW(ws, deltaU, Intended) >= WindowTransmission(ws)
    decreases |ws|
  {
    if |ws| > 0 {
      HTrWIntendedSurcharge(ws[..|ws| - 1], deltaU);
    }
  }

  /** The glazing conductance loop of the source, accumulator and all. */
  method ComputeHTrW(ws: seq<Window>, deltaU: real) returns (h: real)
    ensures h == WindowTransmission(ws)
    ensures h == HTrW(ws, deltaU, AsWritten)
  {
    h := 0.0;
    var aWindow := 0.0;
    var k := 0;
    while k < |ws|
      invariant 0 <= k <= |ws|
      invariant h == WindowTransmission(ws[..k])
      invariant aWindow == 0.0
    {
      assert ws[..k + 1][..k] == ws[..k];
      h := h + ws[k].area * ws[k].u;
      aWindow := aWindow * ws[k].area;
      k := k + 1;
    }
    assert ws[..k] == ws;
    h := h + deltaU * aWindow;
    HTrWAsWrittenDropsBridging(ws, deltaU);
  }

  /** The glazing loop as evidently intended: the window areas are added,
      as the opaque loops add theirs, and the surcharge applies to their sum. */
  method ComputeHTrWIntended(ws: seq<Window>, deltaU: real) returns (h: real)
    ensures h == HTrW(ws, deltaU, Intended)
  {
    h := 0.0;
    var aWindow := 0.0;
    var k := 0;
    while k < |ws|
      invariant 0 <= k <= |ws|
      invariant h == WindowTransmission(ws[..k])
      invariant aWindow == WindowArea(ws[..k])
    {
      assert ws[..k + 1][..k] == ws[..k];
      h := h + ws[k].area * ws[k].u;
      aWindow := aWindow + ws[k].area;
      k := k + 1;
    }
    assert ws[..k] == ws;
    h := h + deltaU * aWindow;
  }

  /** One opaque-element loop of the source: the running Σ a·u·b and the
      running area. */
  method AccumulateOpaque(es: seq<Opaque>, h0: real, a0: real) returns (h: real, a: real)
    ensures h == h0 + OpaqueTransmission(es)
    ensures a == a0 + OpaqueArea(es)
  {
    h, a := h0, a0;
    var k := 0;
    while k < |es|
      invariant 0 <= k <= |es|
      invariant h == h0 + OpaqueTransmission(es[..k])
      invariant a == a0 + OpaqueArea(es[..k])
    {
      assert es[..k + 1][..k] == es[..k];
      h := h + es[k].area * es[k].u * es[k].b;
      a := a + es[k].area;
      k := k + 1;
    }
    assert es[..k] == es;
  }

  /** The door loop of the source: adds each door's area times its
      transmittance, and its area, to running totals. */
  method AccumulateDoors(ds: seq<Door>, h0: real, a0: real) returns (h: real, a: real)
    ensures h == h0 + DoorTransmission(ds)
    ensures a == a0 + DoorArea(ds)
  {
    h, a := h0, a0;
    var k := 0;
    while k < |ds|
      invariant 0 <= k <= |ds|
      invariant h == h0 + DoorTransmission(ds[..k])
      invariant a == a0 + DoorArea(ds[..k])
    {
      assert ds[..k + 1][..k] == ds[..k];
      h := h + ds[k].area * ds[k].u;
      a := a + ds[k].area;
      k := k + 1;
    }
    assert ds[..k] == ds;
  }

  /** The opaque-conductance loops of the source: walls, roofs, floors, then
      doors, accumulating the external area alongside, then the surcharge. */
  method ComputeHTrEm(g: Geometry) returns (h: real)
    ensures h == HTrEm(g)
  {
    var aExternal;
    h, aExternal := AccumulateOpaque(g.walls, 0.0, 0.0);
    h, aExternal := AccumulateOpaque(g.roofs, h, aExternal);
    h, aExternal := AccumulateOpaque(g.floors, h, aExternal);
    h, aExternal := AccumulateDoors(g.doors, h, aExternal);
    EnvelopeSums(g.walls, g.roofs, g.floors, g.doors);
    h := h + g.deltaU * aExternal;
  }

  // ---------------------------------------------------------------------
  // The envelope sums group by group

  lemma {:induction false} OpaqueAppend(xs: seq<Opaque>, ys: seq<Opaque>)
    ensures OpaqueTransmission(xs + ys) == OpaqueTransmission(xs) + OpaqueTransmission(ys)
    ensures OpaqueArea(xs + ys) == OpaqueArea(xs) + OpaqueArea(ys)
    decreases |ys|
  {
    if |ys| == 0 {
      assert xs + ys == xs;
    } else {
      var n := |ys| - 1;
      assert (xs + ys)[..|xs + ys| - 1] == xs + ys[..n];
      assert (xs + ys)[|xs + ys| - 1] == ys[n];
      OpaqueAppend(xs, ys[..n]);
    }
  }

  lemma {:induction false} DoorsAsOpaqueSums(ds: seq<Door>)
    ensures OpaqueTransmission(DoorsAsOpaque(ds)) == DoorTransmission(ds)
    ensures OpaqueArea(DoorsAsOpaque(ds)) == DoorArea(ds)
    decreases |ds|
  {
    if |ds| > 0 {
      var n := |ds| - 1;
      assert DoorsAsOpaque(ds)[..n] == DoorsAsOpaque(ds[..n]);
      DoorsAsOpaqueSums(ds[..n]);
    }
  }

  /** The envelope sums are the group sums the source accumulates loop by loop. */
  lemma EnvelopeSums(walls: seq<Opaque>, roofs: seq<Opaque>, floors: seq<Opaque>, doors: seq<Door>)
    ensures OpaqueTransmission(OpaqueEnvelope(walls, roofs, floors, doors))
      == OpaqueTransmission(walls) + OpaqueTransmission(roofs) + OpaqueTransmission(floors)
         + DoorTransmission(doors)
    ensures OpaqueArea(OpaqueEnvelope(walls, roofs, floors, doors))
      == OpaqueArea(walls) + OpaqueArea(roofs) + OpaqueArea(floors) + DoorArea(doors)
  {
    OpaqueAppend(walls, roofs);
    OpaqueAppend(walls + roofs, floors);
    OpaqueAppend(walls + roofs + floors, DoorsAsOpaque(doors));
    DoorsAsOpaqueSums(doors);
  }

  // ---------------------------------------------------------------------
  // Scaling of the sums

  lemma {:induction false} OpaqueScales(es: seq<Opaque>, ratio: real)
    ensures OpaqueTransmission(ScaleOpaque(es, ratio)) == ratio * OpaqueTransmission(es)
    ensures OpaqueArea(ScaleOpaque(es, ratio)) == ratio * OpaqueArea(es)
    decreases |es|
  {
    if |es| > 0 {
      var n := |es| - 1;
      var s := ScaleOpaque(es, ratio);
      OpaqueScales(es[..n], ratio);
      ScaleOpaquePrefix(es, n, ratio);
      var e := es[n];
      assert s[n].area * s[n].u * s[n].b == (e.area * ratio) * e.u * e.b;
      assert (e.area * ratio) * e.u * e.b == ratio * (e.area * e.u * e.b);
    }
  }

  lemma {:induction false} WindowsScale(ws: seq<Window>, ratio: real)
    ensures WindowTransmission(ScaleWindows(ws, ratio)) == ratio * WindowTransmission(ws)
    ensures WindowArea(ScaleWindows(ws, ratio)) == ratio * WindowArea(ws)
    decreases |ws|
  {
    if |ws| > 0 {
      var n := |ws| - 1;
      var s := ScaleWindows(ws, ratio);
      WindowsScale(ws[..n], ratio);
      ScaleWindowsPrefix(ws, n, ratio);
      assert s[n].area * s[n].u == ratio * (ws[n].area * ws[n].u);
    }
  }

  lemma ScaleOpaquePrefix(es: seq<Opaque>, n: nat, ratio: real)
    requires n <= |es|
    ensures ScaleOpaque(es, ratio)[..n] == ScaleOpaque(es[..n], ratio)
  {
    forall i | 0 <= i < n
      ensures ScaleOpaque(es, ratio)[..n][i] == ScaleOpaque(es[..n], ratio)[i]
    {
      assert es[..n][i] == es[i];
    }
  }

  lemma ScaleWindowsPrefix(ws: seq<Window>, n: nat, ratio: real)
    requires n <= |ws|
    ensures ScaleWindows(ws, ratio)[..n] == ScaleWindows(ws[..n], ratio)
  {
    forall i | 0 <= i < n
      ensures ScaleWindows(ws, ratio)[..n][i] == ScaleWindows(ws[..n], ratio)[i]
    {
      assert ws[..n][i] == ws[i];
    }
  }

  lemma ScaleOpaqueAppend(xs: seq<Opaque>, ys: seq<Opaque>, ratio: real)
    ensures ScaleOpaque(xs + ys, ratio) == ScaleOpaque(xs, ratio) + ScaleOpaque(ys, ratio)
  {
    forall i | 0 <= i < |xs| + |ys|
      ensures ScaleOpaque(xs + ys, ratio)[i] == (ScaleOpaque(xs, ratio) + ScaleOpaque(ys, ratio))[i]
    {
      if i >= |xs| {
        assert (xs + ys)[i] == ys[i - |xs|];
      }
    }
  }

  /** Scaling the doors and then viewing them as opaque elements is the same
      as the other way round. */
  lemma ScaleDoorsAsOpaque(ds: seq<Door>, ratio: real)
    ensures DoorsAsOpaque(ScaleDoors(ds, ratio)) == ScaleOpaque(DoorsAsOpaque(ds), ratio)
  {
    forall i | 0 <= i < |ds|
      ensures DoorsAsOpaque(ScaleDoors(ds, ratio))[i] == ScaleOpaque(DoorsAsOpaque(ds), ratio)[i]
    {
    }
  }

  /** The opaque envelope of the scaled row is the row's envelope, scaled. */
  lemma EnvelopeOfScaledRow(row: TabulaRow, f: real, ratio: real)
    ensures GeometryEnvelope(ScaleRow(row, f, ratio))
      == ScaleOpaque(OpaqueEnvelope(row.walls, row.roofs, row.floors, row.doors), ratio)
  {
    ScaleOpaqueAppend(row.walls, row.roofs, ratio);
    ScaleOpaqueAppend(row.walls + row.roofs, row.floors, ratio);
    ScaleOpaqueAppend(row.walls + row.roofs + row.floors, DoorsAsOpaque(row.doors), ratio);
    ScaleDoorsAsOpaque(row.doors, ratio);
  }

  /** Scaling every area by the same ratio scales the conductance by it. */
  lemma ConductanceScales(es: seq<Opaque>, deltaU: real, ratio: real)
    ensures Conductance(ScaleOpaque(es, ratio), deltaU) == ratio * Conductance(es, deltaU)
  {
    OpaqueScales(es, ratio);
    MulEqual(deltaU, OpaqueArea(ScaleOpaque(es, ratio)), ratio * OpaqueArea(es));
  }

  /** The opaque conductance of the unscaled row. */
  function RowHTrEm(row: TabulaRow): real
  {
    Conductance(OpaqueEnvelope(row.walls, row.roofs, row.floors, row.doors), row.deltaU)
  }

  /** The opaque conductance of the row scaled by `ratio` is `ratio` times
      that of the unscaled row. */
  lemma HTrEmScales(row: TabulaRow, f: real, ratio: real)
    ensures HTrEm(ScaleRow(row, f, ratio)) == ratio * RowHTrEm(row)
  {
    EnvelopeOfScaledRow(row, f, ratio);
    ConductanceScales(OpaqueEnvelope(row.walls, row.roofs, row.floors, row.doors), row.deltaU, ratio);
  }

  /** Scaling every window area by `ratio` scales the glazing conductance by it. */
  lemma HTrWScales(ws: seq<Window>, deltaU: real, ratio: real, fidelity: Fidelity)
    ensures HTrW(ScaleWindows(ws, ratio), deltaU, fidelity) == ratio * HTrW(ws, deltaU, fidelity)
  {
    var scaled := ScaleWindows(ws, ratio);
    WindowsScale(ws, ratio);
    match fidelity
    case AsWritten =>
      HTrWAsWrittenDropsBridging(scaled, deltaU);
      HTrWAsWrittenDropsBridging(ws, deltaU);
    case Intended =>
      SurchargeScales(HTrW(scaled, deltaU, Intended), HTrW(ws, deltaU, Intended),
        WindowTransmission(scaled), WindowArea(scaled), WindowTransmission(ws), WindowArea(ws),
        deltaU, ratio);
  }

  /** If transmission and area both scale by r, so does transmission plus
      surcharge times area. */
  lemma SurchargeScales(h: real, h0: real, t: real, a: real, t0: real, a0: real, deltaU: real, r: real)
    requires h == t + deltaU * a && h0 == t0 + deltaU * a0
    requires t == r * t0 && a == r * a0
    ensures h == r * h0
  {
    assert deltaU * (r * a0) == r * (deltaU * a0);
  }

  lemma MulEqual(r: real, x: real, y: real)
    requires x == y
    ensures r * x == r * y
  {
  }

  lemma MulNonNegative(x: real, y: real)
    requires x >= 0.0 && y >= 0.0
    ensures x * y >= 0.0
  {
  }

  lemma MulPositive(x: real, y: real)
    requires x > 0.0 && y > 0.0
    ensures x * y > 0.0
  {
  }

  // ---------------------------------------------------------------------
  // Ventilation, internal area and thermal mass

  /** Volumetric heat capacity of air, J/(m³K). */
  const AirHeatCapacity: real := 1200.0
  /** Ratio of the room-facing surface area to the floor area (section 7.2.2.2). */
  const InternalAreaFactor: real := 4.5
  /** Heat transfer coefficient between air and surface nodes, W/(m²K). */
  const HIs: real := 3.45
  /** Heat transfer coefficient between surface and mass nodes, W/(m²K). */
  const HMs: real := 9.1

  /** Per-floor-area multipliers of a building class (section 12.3.1.2). */
  datatype ClassFactors = ClassFactors(aM: real, cM: real)

  /** The building-class table; any other class name is unknown. */
  function ClassTable(cls: string): (r: Option<ClassFactors>)
    ensures r.Some? <==> cls in {"very light", "light", "average", "heavy", "very heavy"}
    ensures r.Some? ==> r.value.aM > 0.0 && r.value.cM > 0.0
  {
    if cls == "very light" then Some(ClassFactors(2.5, 80000.0))
    else if cls == "light" then Some(ClassFactors(2.5, 110000.0))
    else if cls == "average" then Some(ClassFactors(2.5, 165000.0))
    else if cls == "heavy" then Some(ClassFactors(3.0, 260000.0))
    else if cls == "very heavy" then Some(ClassFactors(3.0, 370000.0))
    else None
  }

  /** Heavier classes never have less mass area and always have more capacitance. */
  lemma ClassTableOrdered()
    ensures var order := ["very light", "light", "average", "heavy", "very heavy"];
      forall i, j :: 0 <= i < j < 5 ==>
        ClassTable(order[i]).Some? && ClassTable(order[j]).Some? &&
        ClassTable(order[i]).value.aM <= ClassTable(order[j]).value.aM &&
        ClassTable(order[i]).value.cM < ClassTable(order[j]).value.cM
  {
    assert ClassTable("very light") == Some(ClassFactors(2.5, 80000.0));
    assert ClassTable("light") == Some(ClassFactors(2.5, 110000.0));
    assert ClassTable("average") == Some(ClassFactors(2.5, 165000.0));
    assert ClassTable("heavy") == Some(ClassFactors(3.0, 260000.0));
    assert ClassTable("very heavy") == Some(ClassFactors(3.0, 370000.0));
  }

  /** Ventilation conductance (section 9.3.1): the air's volumetric heat
      capacity per hour times the hourly air volume exchanged. */
  function HVe(airChangeRate: real, roomHeight: real, floorArea: real): real
  {
    (AirHeatCapacity / 3600.0) * (airChangeRate * roomHeight * floorArea)
  }

  /** The derived configuration from scaled element data and a building class. */
  function Derive(g: Geometry, cls: string, fidelity: Fidelity): (r: Result<Config5RC, EnvelopeError>)
    ensures r.Err? <==> ClassTable(cls).None?
    ensures r.Err? ==> r.error == UnknownBuildingClass(cls)
    ensures r.Ok? ==> r.value.floor_area == g.floorArea
    ensures r.Ok? ==> r.value.h_tr_em == HTrEm(g)
    ensures r.Ok? ==> r.value.h_tr_w == HTrW(g.windows, g.deltaU, fidelity)
    ensures r.Ok? ==> r.value.heat_transfer_coefficient_ventilation == g.heatTransferCoefficientVentilation
    ensures r.Ok? ==> r.value.total_air_change_rate == g.totalAirChangeRate
  {
    match ClassTable(cls)
    case None => Err(UnknownBuildingClass(cls))
    case Some(factors) =>
      var internalArea := g.floorArea * InternalAreaFactor;
      var massArea := g.floorArea * factors.aM;
      Ok(Config5RC(
        total_internal_area := internalArea,
        h_ve := HVe(g.totalAirChangeRate, g.roomHeight, g.floorArea),
        h_tr_w := HTrW(g.windows, g.deltaU, fidelity),
        h_tr_em := HTrEm(g),
        h_tr_is := HIs * internalArea,
        mass_area := massArea,
        h_tr_ms := HMs * massArea,
        c_m := g.floorArea * factors.cM,
        floor_area := g.floorArea,
        heat_transfer_coefficient_ventilation := g.heatTransferCoefficientVentilation,
        total_air_change_rate := g.totalAirChangeRate))
  }

  /** The catalog path: scale the row, then derive. */
  function DeriveFromRow(row: TabulaRow, requested: Option<real>, cls: string, fidelity: Fidelity)
    : (r: Result<Config5RC, EnvelopeError>)
    ensures r.Err? <==> (requested.Some? && row.referenceArea == 0.0) || ClassTable(cls).None?
    ensures r.Ok? && requested.Some? ==> r.value.floor_area == requested.value
    ensures r.Ok? && requested.None? ==> r.value.floor_area == row.referenceArea
  {
    var g :- LoadGeometry(row, requested);
    Derive(g, cls, fidelity)
  }

  /** The mass area, internal area, capacitance and the conductances fixed
      by them are the class multipliers times the floor area. */
  lemma FloorProportional(g: Geometry, cls: string, fidelity: Fidelity)
    requires ClassTable(cls).Some?
    ensures var e := Derive(g, cls, fidelity).value;
      && e.total_internal_area == 4.5 * e.floor_area
      && e.h_tr_is == 15.525 * e.floor_area
      && e.mass_area == ClassTable(cls).value.aM * e.floor_area
      && e.h_tr_ms == 9.1 * ClassTable(cls).value.aM * e.floor_area
      && e.c_m == ClassTable(cls).value.cM * e.floor_area
      && e.h_ve == e.total_air_change_rate * g.roomHeight * e.floor_area / 3.0
  {
  }

  /** Every area, conductance and the capacitance of `c` are `ratio` times those of `c0`. */
  ghost predicate ConfigScaled(c: Config5RC, c0: Config5RC, ratio: real)
  {
    && c.floor_area == ratio * c0.floor_area
    && c.total_internal_area == ratio * c0.total_internal_area
    && c.h_ve == ratio * c0.h_ve
    && c.h_tr_w == ratio * c0.h_tr_w
    && c.h_tr_em == ratio * c0.h_tr_em
    && c.h_tr_is == ratio * c0.h_tr_is
    && c.mass_area == ratio * c0.mass_area
    && c.h_tr_ms == ratio * c0.h_tr_ms
    && c.c_m == ratio * c0.c_m
  }

  /** Deriving for a requested floor area multiplies every conductance, area
      and the capacitance of the reference derivation by the floor-area ratio. */
  lemma EnvelopeScales(row: TabulaRow, f: real, cls: string, fidelity: Fidelity)
    requires row.referenceArea != 0.0
    requires ClassTable(cls).Some?
    ensures var scaled := DeriveFromRow(row, Some(f), cls, fidelity);
      var reference := DeriveFromRow(row, None, cls, fidelity);
      && scaled.Ok? && reference.Ok?
      && ConfigScaled(scaled.value, reference.value, f / row.referenceArea)
  {
    var ratio := f / row.referenceArea;
    assert LoadGeometry(row, Some(f)) == Ok(ScaleRow(row, f, ratio));
    assert LoadGeometry(row, None) == Ok(ScaleRow(row, row.referenceArea, 1.0));
    ScaledAgainstReference(row, f, ratio, cls, fidelity);
  }

  /** The derivation for the row scaled to `f` against the reference derivation. */
  lemma ScaledAgainstReference(row: TabulaRow, f: real, ratio: real, cls: string, fidelity: Fidelity)
    requires ClassTable(cls).Some?
    requires f == ratio * row.referenceArea
    ensures ConfigScaled(Derive(ScaleRow(row, f, ratio), cls, fidelity).value,
      Derive(ScaleRow(row, row.referenceArea, 1.0), cls, fidelity).value, ratio)
  {
    HTrEmMatchesReference(row, f, ratio);
    HTrWMatchesReference(row.windows, row.deltaU, ratio, fidelity);
    DeriveScales(ScaleRow(row, f, ratio), ScaleRow(row, row.referenceArea, 1.0), ratio, cls, fidelity);
  }

  /** The opaque conductance of the row scaled by `ratio` is `ratio` times
      that of the reference geometry. */
  lemma HTrEmMatchesReference(row: TabulaRow, f: real, ratio: real)
    ensures HTrEm(ScaleRow(row, f, ratio)) == ratio * HTrEm(ScaleRow(row, row.referenceArea, 1.0))
  {
    HTrEmScales(row, f, ratio);
    HTrEmScales(row, row.referenceArea, 1.0);
    RescaleFromUnit(HTrEm(ScaleRow(row, f, ratio)), HTrEm(ScaleRow(row, row.referenceArea, 1.0)),
      RowHTrEm(row), ratio);
  }

  /** The glazing conductance of the windows scaled by `ratio` is `ratio`
      times that of the windows scaled by one. */
  lemma HTrWMatchesReference(ws: seq<Window>, deltaU: real, ratio: real, fidelity: Fidelity)
    ensures HTrW(ScaleWindows(ws, ratio), deltaU, fidelity) == ratio * HTrW(ScaleWindows(ws, 1.0), deltaU, fidelity)
  {
    HTrWScales(ws, deltaU, ratio, fidelity);
    HTrWScales(ws, deltaU, 1.0, fidelity);
    RescaleFromUnit(HTrW(ScaleWindows(ws, ratio), deltaU, fidelity),
      HTrW(ScaleWindows(ws, 1.0), deltaU, fidelity), HTrW(ws, deltaU, fidelity), ratio);
  }

  lemma RescaleFromUnit(x: real, x0: real, y: real, ratio: real)
    requires x == ratio * y && x0 == 1.0 * y
    ensures x == ratio * x0
  {
  }

  /** Two geometries that differ only by a floor-area ratio derive
      configurations that differ by it. */
  lemma DeriveScales(g: Geometry, g0: Geometry, ratio: real, cls: string, fidelity: Fidelity)
    requires ClassTable(cls).Some?
    requires g.floorArea == ratio * g0.floorArea
    requires g.totalAirChangeRate == g0.totalAirChangeRate && g.roomHeight == g0.roomHeight
    requires HTrEm(g) == ratio * HTrEm(g0)
    requires HTrW(g.windows, g.deltaU, fidelity) == ratio * HTrW(g0.windows, g0.deltaU, fidelity)
    ensures ConfigScaled(Derive(g, cls, fidelity).value, Derive(g0, cls, fidelity).value, ratio)
  {
    var factors := ClassTable(cls).value;
    var n := g.totalAirChangeRate * g.roomHeight;
    var f0 := g0.floorArea;
    assert (AirHeatCapacity / 3600.0) * (n * (ratio * f0)) == ratio * ((AirHeatCapacity / 3600.0) * (n * f0));
    assert (ratio * f0) * InternalAreaFactor == ratio * (f0 * InternalAreaFactor);
    assert HIs * (ratio * f0 * InternalAreaFactor) == ratio * (HIs * (f0 * InternalAreaFactor));
    assert (ratio * f0) * factors.aM == ratio * (f0 * factors.aM);
    assert HMs * (ratio * f0 * factors.aM) == ratio * (HMs * (f0 * factors.aM));
    assert (ratio * f0) * factors.cM == ratio * (f0 * factors.cM);
  }

  // ---------------------------------------------------------------------
  // Positivity

  ghost predicate PositiveOpaque(es: seq<Opaque>)
  {
    forall i :: 0 <= i < |es| ==> es[i].area > 0.0 && es[i].u > 0.0 && es[i].b > 0.0
  }

  ghost predicate PositiveDoors(ds: seq<Door>)
  {
    forall i :: 0 <= i < |ds| ==> ds[i].area > 0.0 && ds[i].u > 0.0
  }

  ghost predicate PositiveWindows(ws: seq<Window>)
  {
    forall i :: 0 <= i < |ws| ==> ws[i].area > 0.0 && ws[i].u > 0.0
  }

  ghost predicate NonNegativeOpaque(es: seq<Opaque>)
  {
    forall i :: 0 <= i < |es| ==> es[i].area >= 0.0 && es[i].u >= 0.0 && es[i].b >= 0.0
  }

  ghost predicate NonNegativeDoors(ds: seq<Door>)
  {
    forall i :: 0 <= i < |ds| ==> ds[i].area >= 0.0 && ds[i].u >= 0.0
  }

  lemma {:induction false} OpaqueNonNegative(es: seq<Opaque>)
    requires NonNegativeOpaque(es)
    ensures OpaqueArea(es) >= 0.0 && OpaqueTransmission(es) >= 0.0
    decreases |es|
  {
    if |es| > 0 {
      var n := |es| - 1;
      OpaqueNonNegative(es[..n]);
      MulNonNegative(es[n].area, es[n].u);
      MulNonNegative(es[n].area * es[n].u, es[n].b);
    }
  }

  lemma OpaquePositive(es: seq<Opaque>)
    requires PositiveOpaque(es) && |es| > 0
    ensures OpaqueArea(es) > 0.0 && OpaqueTransmission(es) > 0.0
  {
    var n := |es| - 1;
    OpaqueNonNegative(es[..n]);
    MulPositive(es[n].area, es[n].u);
    MulPositive(es[n].area * es[n].u, es[n].b);
  }

  lemma {:induction false} DoorsNonNegative(ds: seq<Door>)
    requires NonNegativeDoors(ds)
    ensures DoorArea(ds) >= 0.0 && DoorTransmission(ds) >= 0.0
    decreases |ds|
  {
    if |ds| > 0 {
      var n := |ds| - 1;
      DoorsNonNegative(ds[..n]);
      MulNonNegative(ds[n].area, ds[n].u);
    }
  }

  lemma {:induction false} WindowsPositive(ws: seq<Window>)
    requires PositiveWindows(ws)
    ensures WindowArea(ws) >= 0.0 && WindowTransmission(ws) >= 0.0
    ensures |ws| > 0 ==> WindowTransmission(ws) > 0.0
    decreases |ws|
  {
    if |ws| > 0 {
      var n := |ws| - 1;
      WindowsPositive(ws[..n]);
      MulPositive(ws[n].area, ws[n].u);
    }
  }

  /** A catalog row whose architectural inputs are all positive. */
  ghost predicate PositiveRow(row: TabulaRow)
  {
    && row.referenceArea > 0.0
    && PositiveOpaque(row.walls) && PositiveOpaque(row.roofs) && PositiveOpaque(row.floors)
    && PositiveDoors(row.doors) && PositiveWindows(row.windows)
    && |row.walls| > 0 && |row.windows| > 0
    && row.deltaU >= 0.0
    && row.nAirUse + row.nAirInfiltration > 0.0
    && row.roomHeight > 0.0
  }

  /** With positive architectural inputs and a positive (or no) requested
      floor area, every conductance and the capacitance are strictly positive. */
  lemma EnvelopePositive(row: TabulaRow, requested: Option<real>, cls: string, fidelity: Fidelity)
    requires PositiveRow(row)
    requires requested.Some? ==> requested.value > 0.0
    requires ClassTable(cls).Some?
    ensures var r := DeriveFromRow(row, requested, cls, fidelity);
      && r.Ok?
      && r.value.floor_area > 0.0
      && r.value.total_internal_area > 0.0
      && r.value.h_ve > 0.0
      && r.value.h_tr_w > 0.0
      && r.value.h_tr_em > 0.0
      && r.value.h_tr_is > 0.0
      && r.value.mass_area > 0.0
      && r.value.h_tr_ms > 0.0
      && r.value.c_m > 0.0
  {
    var g := LoadGeometry(row, requested).value;
    assert g.ratio > 0.0 by {
      if requested.Some? {
        assert g.ratio * row.referenceArea == requested.value;
        if g.ratio <= 0.0 {
          MulNonPositive(g.ratio, row.referenceArea);
        }
      }
    }
    assert g == ScaleRow(row, g.floorArea, g.ratio);
    ScaledRowPositive(row, g.floorArea, g.ratio);
    HTrEmPositive(g);
    HTrWPositive(g.windows, g.deltaU, fidelity);
    DerivedPositive(g, cls, fidelity);
  }

  /** A positive geometry derives positive parameters. */
  lemma DerivedPositive(g: Geometry, cls: string, fidelity: Fidelity)
    requires ClassTable(cls).Some?
    requires g.floorArea > 0.0 && g.totalAirChangeRate > 0.0 && g.roomHeight > 0.0
    requires HTrEm(g) > 0.0 && HTrW(g.windows, g.deltaU, fidelity) > 0.0
    ensures var r := Derive(g, cls, fidelity);
      && r.Ok?
      && r.value.floor_area > 0.0
      && r.value.total_internal_area > 0.0
      && r.value.h_ve > 0.0
      && r.value.h_tr_w > 0.0
      && r.value.h_tr_em > 0.0
      && r.value.h_tr_is > 0.0
      && r.value.mass_area > 0.0
      && r.value.h_tr_ms > 0.0
      && r.value.c_m > 0.0
  {
    var factors := ClassTable(cls).value;
    MulPositive(g.floorArea, factors.aM);
    MulPositive(g.floorArea, factors.cM);
    MulPositive(g.totalAirChangeRate, g.roomHeight);
    MulPositive(g.totalAirChangeRate * g.roomHeight, g.floorArea);
    MulPositive(AirHeatCapacity / 3600.0, g.totalAirChangeRate * g.roomHeight * g.floorArea);
  }

  lemma MulNonPositive(x: real, y: real)
    requires x <= 0.0 && y > 0.0
    ensures x * y <= 0.0
  {
  }

  ghost predicate PositiveGeometry(g: Geometry)
  {
    && g.floorArea > 0.0
    && PositiveOpaque(g.walls) && PositiveOpaque(g.roofs) && PositiveOpaque(g.floors)
    && PositiveDoors(g.doors) && PositiveWindows(g.windows)
    && |g.walls| > 0 && |g.windows| > 0
    && g.deltaU >= 0.0
    && g.totalAirChangeRate > 0.0
    && g.roomHeight > 0.0
  }

  /** Scaling a positive row by a positive ratio keeps every input positive. */
  lemma ScaledRowPositive(row: TabulaRow, f: real, ratio: real)
    requires PositiveRow(row) && ratio > 0.0 && f > 0.0
    ensures PositiveGeometry(ScaleRow(row, f, ratio))
  {
    var g := ScaleRow(row, f, ratio);
    forall i | 0 <= i < |row.walls|
      ensures g.walls[i].area > 0.0
    {
      MulPositive(row.walls[i].area, ratio);
    }
    forall i | 0 <= i < |row.roofs|
      ensures g.roofs[i].area > 0.0
    {
      MulPositive(row.roofs[i].area, ratio);
    }
    forall i | 0 <= i < |row.floors|
      ensures g.floors[i].area > 0.0
    {
      MulPositive(row.floors[i].area, ratio);
    }
    forall i | 0 <= i < |row.doors|
      ensures g.doors[i].area > 0.0
    {
      MulPositive(row.doors[i].area, ratio);
    }
    forall i | 0 <= i < |row.windows|
      ensures g.windows[i].area > 0.0
    {
      MulPositive(row.windows[i].area, ratio);
    }
  }

  /** Positive walls, non-negative roofs, floors and doors and a
      non-negative surcharge give a positive opaque conductance. */
  lemma HTrEmPositive(g: Geometry)
    requires PositiveOpaque(g.walls) && NonNegativeOpaque(g.roofs) && NonNegativeOpaque(g.floors)
    requires NonNegativeDoors(g.doors) && |g.walls| > 0 && g.deltaU >= 0.0
    ensures HTrEm(g) > 0.0
  {
    OpaquePositive(g.walls);
    OpaqueNonNegative(g.walls);
    OpaqueNonNegative(g.roofs);
    OpaqueNonNegative(g.floors);
    DoorsNonNegative(g.doors);
    EnvelopeSums(g.walls, g.roofs, g.floors, g.doors);
    MulNonNegative(g.deltaU, OpaqueArea(GeometryEnvelope(g)));
  }

  /** Positive windows give a positive glazing conductance either way. */
  lemma HTrWPositive(ws: seq<Window>, deltaU: real, fidelity: Fidelity)
    requires PositiveWindows(ws) && |ws| > 0 && deltaU >= 0.0
    ensures HTrW(ws, deltaU, fidelity) > 0.0
  {
    WindowsPositive(ws);
    match fidelity
    case AsWritten =>
      HTrWAsWrittenDropsBridging(ws, deltaU);
    case Intended =>
      MulNonNegative(deltaU, WindowArea(ws));
  }
}
