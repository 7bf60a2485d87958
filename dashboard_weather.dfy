/**
 * The dashboard: the subscriber that turns each published record into the
 * displayed values and two growing chart series, and the rule that decides
 * which x-axis labels are shown as the charts fill up.
 */
module DashboardWeather {
  import opened WeatherModel
  import opened TimeOfDay

  /** A chart point `{ name: time, value }`. */
  datatype Point = Point(name: Time, value: Reading)

  /** The temperature chart series after the non-null records `rs`: one point per record with a temperature. */
  function TemperaturePoints(rs: seq<Record>): (ps: seq<Point>)
    ensures |ps| <= |rs|
    ensures forall k :: 0 <= k < |ps| ==>
              exists j :: 0 <= j < |rs| && rs[j].time == ps[k].name && rs[j].value == Some(ps[k].value)
    ensures forall j :: 0 <= j < |rs| && rs[j].value.Some? ==> Point(rs[j].time, rs[j].value.value) in ps
    decreases |rs|
  {
    if rs == [] then []
    else
      var last := rs[|rs| - 1];
      var init := TemperaturePoints(rs[..|rs| - 1]);
      if last.value.Some? then init + [Point(last.time, last.value.value)] else init
  }

  /** The power chart series after the non-null records `rs`: one point per record with an energy. */
  function PowerPoints(rs: seq<Record>): (ps: seq<Point>)
    ensures |ps| <= |rs|
    ensures forall k :: 0 <= k < |ps| ==>
              exists j :: 0 <= j < |rs| && rs[j].time == ps[k].name && rs[j].power == Some(ps[k].value)
    ensures forall j :: 0 <= j < |rs| && rs[j].power.Some? ==> Point(rs[j].time, rs[j].power.value) in ps
    decreases |rs|
  {
    if rs == [] then []
    else
      var last := rs[|rs| - 1];
      var init := PowerPoints(rs[..|rs| - 1]);
      if last.power.Some? then init + [Point(last.time, last.power.value)] else init
  }

  /** Records in strictly increasing time order. */
  predicate RecordsInOrder(rs: seq<Record>) {
    forall i, j :: 0 <= i < j < |rs| ==> rs[i].time < rs[j].time
  }

  /** Points in strictly increasing time order along the x axis. */
  predicate PointsInOrder(ps: seq<Point>) {
    forall i, j :: 0 <= i < j < |ps| ==> ps[i].name < ps[j].name
  }

  /**
   * Records received in time order draw a temperature series in time order,
   * no longer than the records and with no point later than the last record.
   */
  lemma {:induction false} TemperaturePointsInOrder(rs: seq<Record>)
    requires RecordsInOrder(rs)
    ensures PointsInOrder(TemperaturePoints(rs))
    ensures |TemperaturePoints(rs)| <= |rs|
    ensures rs != [] ==> forall k :: 0 <= k < |TemperaturePoints(rs)| ==>
              TemperaturePoints(rs)[k].name <= rs[|rs| - 1].time
    decreases |rs|
  {
    if rs != [] {
      var init := rs[..|rs| - 1];
      TemperaturePointsInOrder(init);
      if init != [] {
        assert init[|init| - 1].time < rs[|rs| - 1].time;
      }
      var ps, last := TemperaturePoints(init), rs[|rs| - 1];
      assert forall k :: 0 <= k < |ps| ==> ps[k].name < last.time;
      if last.value.Some? {
        AppendInOrder(ps, Point(last.time, last.value.value));
        assert TemperaturePoints(rs) == ps + [Point(last.time, last.value.value)];
      } else {
        assert TemperaturePoints(rs) == ps;
      }
    }
  }

  /**
   * Records received in time order draw a power series in time order, no
   * longer than the records and with no point later than the last record.
   */
  lemma {:induction false} PowerPointsInOrder(rs: seq<Record>)
    requires RecordsInOrder(rs)
    ensures PointsInOrder(PowerPoints(rs))
    ensures |PowerPoints(rs)| <= |rs|
    ensures rs != [] ==> forall k :: 0 <= k < |PowerPoints(rs)| ==>
              PowerPoints(rs)[k].name <= rs[|rs| - 1].time
    decreases |rs|
  {
    if rs != [] {
      var init := rs[..|rs| - 1];
      PowerPointsInOrder(init);
      if init != [] {
        assert init[|init| - 1].time < rs[|rs| - 1].time;
      }
      var ps, last := PowerPoints(init), rs[|rs| - 1];
      assert forall k :: 0 <= k < |ps| ==> ps[k].name < last.time;
      if last.power.Some? {
        AppendInOrder(ps, Point(last.time, last.power.value));
        assert PowerPoints(rs) == ps + [Point(last.time, last.power.value)];
      } else {
        assert PowerPoints(rs) == ps;
      }
    }
  }

  /** A point later than every point of an ordered series extends it in order. */
  lemma AppendInOrder(ps: seq<Point>, p: Point)
    requires PointsInOrder(ps)
    requires forall k :: 0 <= k < |ps| ==> ps[k].name < p.name
    ensures PointsInOrder(ps + [p])
  {
  }

  /**
   * `getDynamicIntervalSeconds`: no interval (every label shown) below 15
   * points; from 15 points on, 30 seconds more for every further 15 points.
   */
  function DynamicIntervalSeconds(chartDataLength: nat): (r: nat)
    ensures r == 0 <==> chartDataLength < 15
    ensures r % 30 == 0
    ensures 15 <= chartDataLength ==> 15 * (r / 30) <= chartDataLength < 15 * (r / 30 + 1)
  {
    if chartDataLength < 15 then 0
    else
      var block := chartDataLength / 15;
      block * 30
  }

  /** More points never make the label interval shorter. */
  lemma {:induction false} IntervalNonDecreasing(a: nat, b: nat)
    requires a <= b
    ensures DynamicIntervalSeconds(a) <= DynamicIntervalSeconds(b)
  {
    if 15 <= a {
      var ra, rb := DynamicIntervalSeconds(a), DynamicIntervalSeconds(b);
      assert 15 * (ra / 30) <= a <= b < 15 * (rb / 30 + 1);
      assert ra / 30 <= rb / 30;
    }
  }

  /**
   * The label rule of `xAxisTickFormatting` for a point at time `t`: with fewer
   * than 15 points every label is shown; otherwise only where the minutes and
   * seconds within the hour, in seconds, are a multiple of the interval.
   */
  function LabelShown(chartDataLength: nat, t: Time): (shown: bool)
    ensures chartDataLength < 15 ==> shown
    ensures 15 <= chartDataLength ==> (shown <==> (t % 3600) % DynamicIntervalSeconds(chartDataLength) == 0)
  {
    if chartDataLength < 15 then true
    else
      var intervalSec := DynamicIntervalSeconds(chartDataLength);
      var minutes := (t / 60) % 60;
      var seconds := t % 60;
      var totalSeconds := minutes * 60 + seconds;
      SecondsWithinHour(t);
      intervalSec > 0 && totalSeconds % intervalSec == 0
  }

  /** The minutes and seconds of a time of day, in seconds, are its seconds since the start of the hour. */
  lemma SecondsWithinHour(t: Time)
    ensures ((t / 60) % 60) * 60 + t % 60 == t % 3600
  {
    TimeParts(t);
  }

  /** The labels shown repeat every hour: the rule only sees the minutes and seconds. */
  lemma SameLabelsEveryHour(chartDataLength: nat, t: Time)
    requires t + 3600 < 86400
    ensures LabelShown(chartDataLength, t) == LabelShown(chartDataLength, t + 3600)
  {
    assert (t + 3600) % 3600 == t % 3600;
  }

  /**
   * When the interval divides an hour, the shown labels are exactly the times
   * that are a multiple of the interval, so they are evenly spaced all day.
   */
  lemma {:induction false} EvenlySpacedLabels(chartDataLength: nat, t: Time)
    requires 15 <= chartDataLength
    requires 3600 % DynamicIntervalSeconds(chartDataLength) == 0
    ensures LabelShown(chartDataLength, t) <==> t % DynamicIntervalSeconds(chartDataLength) == 0
  {
    var d := DynamicIntervalSeconds(chartDataLength);
    var q := 3600 / d;
    assert 3600 == q * d;
    var h := t / 3600;
    assert t == h * 3600 + t % 3600;
    assert t == (h * q) * d + t % 3600;
    ModuloAfterMultiple(h * q, d, t % 3600);
  }

  /** Adding a multiple of `d` does not change the remainder modulo `d`. */
  lemma ModuloAfterMultiple(n: nat, d: nat, x: nat)
    requires 0 < d
    ensures (n * d + x) % d == x % d
  {
    var y := n * d + x;
    var k := y / d - n - x / d;
    assert k * d == x % d - y % d;
    MultipleAtLeastDivisor(k, d);
  }

  /** A non-zero multiple of a positive `d` is at least `d` away from zero. */
  lemma MultipleAtLeastDivisor(k: int, d: int)
    requires 0 < d
    ensures 1 <= k ==> d <= k * d
    ensures k <= -1 ==> k * d <= -d
  {
    if 1 <= k {
      assert k * d == d + (k - 1) * d;
    } else if k <= -1 {
      assert k * d == -d + (k + 1) * d;
    }
  }

  /**
   * With an interval of 210 seconds (105 to 119 points), which does not divide
   * an hour, the labels at 00:59:30 and 01:00:00 are both shown, only 30 seconds apart.
   */
  lemma UnevenLabelsAtTheHour()
    ensures DynamicIntervalSeconds(105) == 210
    ensures LabelShown(105, 3570) && LabelShown(105, 3600)
  {
  }

  /**
   * The component's state that the subscription updates: the last record, its
   * mean temperature and accumulated energy, and the two chart series.
   */
  class DashboardWeatherComponent {
    var currentValue: Option<Record>
    var averageTemperature: Option<real>
    var totalEnergyKWh: Option<real>
    var chartDataLength: nat
    var temperatureSeries: seq<Point>
    var powerSeries: seq<Point>
    /** The non-null records handled so far. */
    ghost var Received: seq<Record>

    /**
     * The series are those drawn from the records received, `chartDataLength`
     * is the length of the temperature series, and the displayed values are
     * those of the last record (or their initial `null`).
     */
    ghost predicate Valid()
      reads this
    {
      && temperatureSeries == TemperaturePoints(Received)
      && powerSeries == PowerPoints(Received)
      && chartDataLength == |temperatureSeries|
      && (Received == [] ==> currentValue == None && averageTemperature == None && totalEnergyKWh == None)
      && (Received != [] ==>
            var last := Received[|Received| - 1];
            && currentValue == Some(last)
            && averageTemperature == last.avgTemperature
            && totalEnergyKWh == Some(last.totalEnergyKWh))
    }

    /** The component before the first emission: nothing displayed, empty charts. */
    constructor ()
      ensures Valid() && Received == []
      ensures currentValue == None && averageTemperature == None && totalEnergyKWh == None
      ensures chartDataLength == 0 && temperatureSeries == [] && powerSeries == []
    {
      currentValue, averageTemperature, totalEnergyKWh := None, None, None;
      chartDataLength := 0;
      temperatureSeries, powerSeries := [], [];
      Received := [];
    }

    /**
     * The subscriber's handling of one emission. `null` changes nothing. A
     * record becomes the displayed value, mean and total, and adds one point to
     * each chart whose reading it carries; `chartDataLength` follows the
     * temperature series.
     */
    method OnValue(value: Option<Record>)
      requires Valid()
      modifies this
      ensures Valid()
      ensures value.None? ==>
        && currentValue == old(currentValue) && averageTemperature == old(averageTemperature)
        && totalEnergyKWh == old(totalEnergyKWh) && chartDataLength == old(chartDataLength)
        && temperatureSeries == old(temperatureSeries) && powerSeries == old(powerSeries)
        && Received == old(Received)
      ensures value.Some? ==>
        var r := value.value;
        && currentValue == value && averageTemperature == r.avgTemperature
        && totalEnergyKWh == Some(r.totalEnergyKWh)
        && temperatureSeries == old(temperatureSeries) + (if r.value.Some? then [Point(r.time, r.value.value)] else [])
        && powerSeries == old(powerSeries) + (if r.power.Some? then [Point(r.time, r.power.value)] else [])
        && chartDataLength == |temperatureSeries|
        && Received == old(Received) + [r]
    {
      if value.None? {
        return;
      }
      var r := value.value;
      currentValue := value;
      averageTemperature := r.avgTemperature;
      totalEnergyKWh := Some(r.totalEnergyKWh);
      if r.value.Some? {
        temperatureSeries := temperatureSeries + [Point(r.time, r.value.value)];
      }
      if r.power.Some? {
        powerSeries := powerSeries + [Point(r.time, r.power.value)];
      }
      chartDataLength := |temperatureSeries|;
      Received := Received + [r];
      assert Received[..|Received| - 1] == old(Received);
    }
  }
}
