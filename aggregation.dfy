/**
 * What one tick of the weather stream computes: the lookup of a sample by time,
 * the unit conversions, and the running totals behind the mean temperature and
 * the accumulated energy.
 */
module Aggregation {
  import opened WeatherModel

  /**
   * `series.find(s => s.time === time)`: the first sample of the series taken
   * at `time`, or `None` when the series has none.
   */
  function Find(series: seq<Sample>, time: Time): (r: Option<Sample>)
    ensures r.None? <==> forall k :: 0 <= k < |series| ==> series[k].time != time
    ensures r.Some? ==> exists k :: 0 <= k < |series| && series[k] == r.value && r.value.time == time &&
                                   forall j :: 0 <= j < k ==> series[j].time != time
  {
    if series == [] then None
    else if series[0].time == time then Some(series[0])
    else
      var r := Find(series[1..], time);
      if r.Some? then
        var k :| 0 <= k < |series| - 1 && series[1..][k] == r.value && r.value.time == time &&
                 forall j :: 0 <= j < k ==> series[1..][j].time != time;
        assert series[k + 1] == r.value;
        r
      else r
  }

  /**
   * Temperature in deci-kelvin to degrees Celsius (`raw / 10 - 273.15`);
   * a NaN sample stays NaN.
   */
  function Celsius(raw: Reading): (c: Reading)
    ensures c.NaN? <==> raw.NaN?
    ensures c.Num? ==> (c.x + 273.15) * 10.0 == raw.x
  {
    match raw
    case Num(x) => Num(x / 10.0 - 273.15)
    case NaN => NaN
  }

  /** Seconds between two ticks of the stream; `mwToKwh` integrates power over this interval. */
  const TickSeconds: real := 5.0

  /**
   * `mwToKwh`: the energy in kWh delivered during one tick by a power in MW held
   * constant over the tick; NaN stays NaN.
   */
  function MwToKwh(mw: Reading): (kwh: Reading)
    ensures kwh.NaN? <==> mw.NaN?
    ensures kwh.Num? ==> kwh.x / (TickSeconds / 3600.0) == mw.x * 1000.0
    ensures kwh.Num? ==> (kwh.x == 0.0 <==> mw.x == 0.0) && (kwh.x > 0.0 <==> mw.x > 0.0)
  {
    match mw
    case Num(x) => Num(x * 1000.0 * (TickSeconds / 3600.0))
    case NaN => NaN
  }

  /** The closure variables `sumTemp`, `countTemp` and `accumulatedEnergyKWh` of `startStreaming`. */
  datatype Totals = Totals(sumTemp: real, countTemp: nat, accumulatedEnergyKWh: real)

  /** The totals when streaming starts. */
  const Zero := Totals(0.0, 0, 0.0)

  /** `tempC !== null && !isNaN(tempC)`: a temperature that enters the mean. */
  predicate CountsTemperature(tempC: Option<Reading>): (c: bool)
    ensures tempC == None ==> !c
    ensures tempC == Some(NaN) ==> !c
  {
    tempC.Some? && tempC.value.Num?
  }

  /** `if (energyKwh)`: JavaScript truthiness of a number or null, so present, not NaN and not 0. */
  predicate CountsEnergy(energyKwh: Option<Reading>): (c: bool)
    ensures energyKwh == None ==> !c
    ensures energyKwh == Some(NaN) ==> !c
    ensures energyKwh == Some(Num(0.0)) ==> !c
  {
    energyKwh.Some? && energyKwh.value.Num? && energyKwh.value.x != 0.0
  }

  /** The totals after one tick that saw the temperature `tempC` and the energy `energyKwh`. */
  function Accumulate(t: Totals, tempC: Option<Reading>, energyKwh: Option<Reading>): (u: Totals)
    ensures u.countTemp == t.countTemp || u.countTemp == t.countTemp + 1
    ensures u.countTemp == t.countTemp ==> u.sumTemp == t.sumTemp
  {
    var energy := if CountsEnergy(energyKwh) then t.accumulatedEnergyKWh + energyKwh.value.x
                  else t.accumulatedEnergyKWh;
    if CountsTemperature(tempC) then Totals(t.sumTemp + tempC.value.x, t.countTemp + 1, energy)
    else Totals(t.sumTemp, t.countTemp, energy)
  }

  /** `avgTemp`: the mean of the counted temperatures, `None` (null) before the first one. */
  function Average(t: Totals): (avg: Option<real>)
    ensures avg.None? <==> t.countTemp == 0
    ensures avg.Some? ==> avg.value * (t.countTemp as real) == t.sumTemp
  {
    if t.countTemp > 0 then Some(t.sumTemp / t.countTemp as real) else None
  }

  /**
   * The temperature count goes up by one exactly when the tick saw a valid
   * temperature; otherwise the count and the sum stay as they were.
   */
  lemma AccumulateTemperature(t: Totals, tempC: Option<Reading>, energyKwh: Option<Reading>)
    ensures var u := Accumulate(t, tempC, energyKwh);
      && (u.countTemp == t.countTemp + 1 <==> CountsTemperature(tempC))
      && (u.countTemp == t.countTemp <==> !CountsTemperature(tempC))
      && (CountsTemperature(tempC) ==> u.sumTemp - t.sumTemp == tempC.value.x)
      && (!CountsTemperature(tempC) ==> u.sumTemp == t.sumTemp)
  {
  }

  /**
   * The accumulated energy changes exactly when the tick's energy is truthy,
   * and then by that energy; it never decreases when the energy is not negative.
   */
  lemma AccumulateEnergy(t: Totals, tempC: Option<Reading>, energyKwh: Option<Reading>)
    ensures var u := Accumulate(t, tempC, energyKwh);
      && (u.accumulatedEnergyKWh != t.accumulatedEnergyKWh <==> CountsEnergy(energyKwh))
      && (CountsEnergy(energyKwh) ==> u.accumulatedEnergyKWh - t.accumulatedEnergyKWh == energyKwh.value.x)
      && (energyKwh.Some? && energyKwh.value.Num? && energyKwh.value.x >= 0.0 ==>
            t.accumulatedEnergyKWh <= u.accumulatedEnergyKWh)
  {
  }
}
