/**
 * The dashboard subscribed to the weather stream: every record the stream
 * publishes is handed to the component's subscriber in order.
 */
module App {
  import opened WeatherModel
  import opened DataWeatherService
  import opened DashboardWeather

  /**
   * The charts after `ticks` ticks of a stream started at time of day `now`:
   * both series run left to right in time order, and `chartDataLength` counts
   * the temperature points, at most one per tick.
   */
  method Display(temperature: seq<Sample>, power: seq<Sample>, now: Time, ticks: nat)
    returns (published: seq<Record>, temperatureSeries: seq<Point>, powerSeries: seq<Point>, chartDataLength: nat)
    ensures |published| <= ticks
    ensures forall k :: 0 <= k < |published| ==>
              && published[k].value == TemperatureAt(temperature, published[k].time)
              && published[k].power == EnergyAt(power, published[k].time)
    ensures temperatureSeries == TemperaturePoints(published) && powerSeries == PowerPoints(published)
    ensures forall p :: p in temperatureSeries ==> TemperatureAt(temperature, p.name) == Some(p.value)
    ensures forall p :: p in powerSeries ==> EnergyAt(power, p.name) == Some(p.value)
    ensures PointsInOrder(temperatureSeries) && PointsInOrder(powerSeries)
    ensures chartDataLength == |temperatureSeries| <= ticks
    ensures |powerSeries| <= ticks
  {
    published := Stream(temperature, power, now, ticks);
    var component := new DashboardWeatherComponent();
    for i := 0 to |published|
      invariant component.Valid() && component.Received == published[..i]
    {
      component.OnValue(Some(published[i]));
      PrefixStep(published, i);
    }
    assert published[..|published|] == published;
    TemperaturePointsInOrder(published);
    PowerPointsInOrder(published);
    PointsCarryReadings(temperature, power, published);
    temperatureSeries, powerSeries, chartDataLength :=
      component.temperatureSeries, component.powerSeries, component.chartDataLength;
  }

  /** The prefix of `s` one element longer is the prefix followed by that element. */
  lemma PrefixStep(s: seq<Record>, i: nat)
    requires i < |s|
    ensures s[..i + 1] == s[..i] + [s[i]]
  {
  }

  /** Points drawn from records that carry their time's readings show those readings. */
  lemma PointsCarryReadings(temperature: seq<Sample>, power: seq<Sample>, rs: seq<Record>)
    requires forall k :: 0 <= k < |rs| ==>
               && rs[k].value == TemperatureAt(temperature, rs[k].time)
               && rs[k].power == EnergyAt(power, rs[k].time)
    ensures forall p :: p in TemperaturePoints(rs) ==> TemperatureAt(temperature, p.name) == Some(p.value)
    ensures forall p :: p in PowerPoints(rs) ==> EnergyAt(power, p.name) == Some(p.value)
  {
  }
}
