/**
 * The approximate air-quality index derived from particulate readings: each
 * pollutant is scaled onto 0..500 and clamped, the larger one wins, and the value
 * is truncated to an integer.
 */
module Aqi {
  import opened Wrappers

  /** `min(max(x, 0), 500)`. */
  function Clamp(x: real): (r: real)
    ensures 0.0 <= r <= 500.0
    ensures 0.0 <= x <= 500.0 ==> r == x
  {
    if x < 0.0 then 0.0 else if x > 500.0 then 500.0 else x
  }

  function Max(a: real, b: real): real {
    if a >= b then a else b
  }

  /**
   * `compute_aqi`: nothing when both inputs are missing; otherwise a missing input
   * counts as 0. `int()` truncates toward zero, which is `Floor` on a value that is
   * never negative.
   */
  function ComputeAqi(pm25: Option<real>, pm10: Option<real>): (r: Option<int>)
    ensures r.None? <==> pm25.None? && pm10.None?
    ensures r.Some? ==> 0 <= r.value <= 500
  {
    if pm25.None? && pm10.None? then None
    else
      var fromPm25 := Clamp(pm25.GetOr(0.0) * 5.0);
      var fromPm10 := Clamp(pm10.GetOr(0.0) * 2.0);
      Some(Max(fromPm25, fromPm10).Floor)
  }

  /** Clamping each scaled value and then taking the larger equals clamping the larger scaled value. */
  lemma MaxOfClampsIsClampOfMax(a: real, b: real)
    ensures Max(Clamp(a), Clamp(b)) == Clamp(Max(a, b))
  {
  }

  /**
   * With at least one input present, the index is `clamp(max(5 * pm25, 2 * pm10), 0, 500)`,
   * truncated, where a missing input counts as 0.
   */
  lemma AqiIsClampedMax(pm25: Option<real>, pm10: Option<real>)
    requires pm25.Some? || pm10.Some?
    ensures ComputeAqi(pm25, pm10) == Some(Clamp(Max(pm25.GetOr(0.0) * 5.0, pm10.GetOr(0.0) * 2.0)).Floor)
  {
    MaxOfClampsIsClampOfMax(pm25.GetOr(0.0) * 5.0, pm10.GetOr(0.0) * 2.0);
  }

  lemma FloorMonotone(x: real, y: real)
    requires x <= y
    ensures x.Floor <= y.Floor
  {
  }

  /** More particulate matter never lowers the index, for either pollutant. */
  lemma AqiMonotone(pm25: real, pm25': real, pm10: real, pm10': real)
    requires pm25 <= pm25' && pm10 <= pm10'
    ensures ComputeAqi(Some(pm25), Some(pm10)).value <= ComputeAqi(Some(pm25'), Some(pm10')).value
  {
    AqiIsClampedMax(Some(pm25), Some(pm10));
    AqiIsClampedMax(Some(pm25'), Some(pm10'));
    FloorMonotone(Clamp(Max(pm25 * 5.0, pm10 * 2.0)), Clamp(Max(pm25' * 5.0, pm10' * 2.0)));
  }

  /** The two worked examples: (10, 5) gives 50 and (200, 0) is clamped from 1000 to 500. */
  lemma AqiExamples()
    ensures ComputeAqi(Some(10.0), Some(5.0)) == Some(50)
    ensures ComputeAqi(Some(200.0), Some(0.0)) == Some(500)
  {
    assert (50.0).Floor == 50;
    assert (500.0).Floor == 500;
  }
}
