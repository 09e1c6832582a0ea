/** The overheating indicator of DIN 4108-2: excess temperature degree
    hours, the sum over the hours of how far the air temperature exceeds a
    boundary temperature. */
module PostProcessing {
  import opened Common

  /** The boundary temperature used when none is given, in °C. */
  const DefaultBoundary: real := 26.0

  /** How far one hour's temperature exceeds the boundary; zero at or below it. */
  function Excess(t: real, boundary: real): (r: real)
    ensures r >= 0.0
    ensures r > 0.0 <==> t > boundary
    ensures r >= t - boundary
  {
    if t > boundary then t - boundary else 0.0
  }

  /** The hourly excesses of a temperature series. */
  function Excesses(tAir: seq<real>, boundary: real): (r: seq<real>)
    ensures |r| == |tAir|
  {
    seq(|tAir|, i requires 0 <= i < |tAir| => Excess(tAir[i], boundary))
  }

  /** The indicator: the sum of the hourly excesses. */
  function DegreeHours(tAir: seq<real>, boundary: real): real
  {
    Sum(Excesses(tAir, boundary))
  }

  /** The indicator for the default boundary of 26 °C. */
  function DegreeHoursDefault(tAir: seq<real>): (r: real)
    ensures r >= 0.0
    ensures r == 0.0 <==> forall i :: 0 <= i < |tAir| ==> tAir[i] <= 26.0
  {
    DegreeHoursNonNegative(tAir, DefaultBoundary);
    DegreeHoursZero(tAir, DefaultBoundary);
    DegreeHours(tAir, DefaultBoundary)
  }

  /** The indicator computed hour by hour, adding only the hours strictly
      above the boundary. */
  method ExcessDegreeHours(tAir: seq<real>, boundary: real) returns (total: real)
    ensures total == DegreeHours(tAir, boundary)
    ensures total >= 0.0
  {
    total := 0.0;
    var k := 0;
    while k < |tAir|
      invariant 0 <= k <= |tAir|
      invariant total == DegreeHours(tAir[..k], boundary)
    {
      var temp := tAir[k];
      assert Excesses(tAir[..k + 1], boundary) == Excesses(tAir[..k], boundary) + [Excess(temp, boundary)];
      if temp > boundary {
        total := total + (temp - boundary);
      }
      k := k + 1;
    }
    assert tAir[..k] == tAir;
    DegreeHoursNonNegative(tAir, boundary);
  }

  lemma DegreeHoursNonNegative(tAir: seq<real>, boundary: real)
    ensures DegreeHours(tAir, boundary) >= 0.0
  {
    SumNonNegative(Excesses(tAir, boundary));
  }

  /** The indicator of a concatenation of series is the sum of theirs. */
  lemma DegreeHoursAppend(xs: seq<real>, ys: seq<real>, boundary: real)
    ensures DegreeHours(xs + ys, boundary) == DegreeHours(xs, boundary) + DegreeHours(ys, boundary)
  {
    assert Excesses(xs + ys, boundary) == Excesses(xs, boundary) + Excesses(ys, boundary);
    SumAppend(Excesses(xs, boundary), Excesses(ys, boundary));
  }

  /** A series that never exceeds the boundary has no excess degree hours,
      and one that does has some. */
  lemma {:induction false} DegreeHoursZero(tAir: seq<real>, boundary: real)
    ensures DegreeHours(tAir, boundary) == 0.0 <==> forall i :: 0 <= i < |tAir| ==> tAir[i] <= boundary
    decreases |tAir|
  {
    if |tAir| > 0 {
      var init := tAir[..|tAir| - 1];
      var last := tAir[|tAir| - 1];
      DegreeHoursZero(init, boundary);
      assert tAir == init + [last];
      DegreeHoursAppend(init, [last], boundary);
      assert Excesses([last], boundary) == [Excess(last, boundary)];
      assert Sum([Excess(last, boundary)]) == Sum([]) + Excess(last, boundary);
      DegreeHoursNonNegative(init, boundary);
      assert forall i :: 0 <= i < |init| ==> init[i] == tAir[i];
    }
  }

  /** Raising the boundary never increases the indicator. */
  lemma {:induction false} DegreeHoursAntitone(tAir: seq<real>, low: real, high: real)
    requires low <= high
    ensures DegreeHours(tAir, high) <= DegreeHours(tAir, low)
    decreases |tAir|
  {
    if |tAir| > 0 {
      var init := tAir[..|tAir| - 1];
      var last := tAir[|tAir| - 1];
      DegreeHoursAntitone(init, low, high);
      assert tAir == init + [last];
      DegreeHoursAppend(init, [last], low);
      DegreeHoursAppend(init, [last], high);
      assert Excesses([last], low) == [Excess(last, low)];
      assert Excesses([last], high) == [Excess(last, high)];
      assert Sum([Excess(last, low)]) == Sum([]) + Excess(last, low);
      assert Sum([Excess(last, high)]) == Sum([]) + Excess(last, high);
    }
  }

  /** Every hour's excess is bounded by the indicator of the whole series. */
  lemma HourBelowTotal(tAir: seq<real>, boundary: real, k: nat)
    requires k < |tAir|
    ensures Excess(tAir[k], boundary) <= DegreeHours(tAir, boundary)
  {
    var pre, hour, post := tAir[..k], [tAir[k]], tAir[k + 1..];
    assert tAir == pre + hour + post;
    DegreeHoursAppend(pre + hour, post, boundary);
    DegreeHoursAppend(pre, hour, boundary);
    DegreeHoursNonNegative(pre, boundary);
    DegreeHoursNonNegative(post, boundary);
    assert Excesses(hour, boundary) == [Excess(tAir[k], boundary)];
    assert Sum([Excess(tAir[k], boundary)]) == Sum([]) + Excess(tAir[k], boundary);
  }
}
