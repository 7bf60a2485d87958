/**
 * The weather stream service: it merges the series into a timeline, starts at
 * the position of the current time of day, and on every tick of its timer
 * publishes one record and moves one position on, until the timeline ends.
 */
module DataWeatherService {
  import opened WeatherModel
  import opened Timeline
  import opened Aggregation

  /** `tempC` of a tick at `time`: the converted first temperature sample at that time, if any. */
  function TemperatureAt(temperature: seq<Sample>, time: Time): (r: Option<Reading>)
    ensures r.None? <==> forall k :: 0 <= k < |temperature| ==> temperature[k].time != time
    ensures r.Some? ==> exists k :: 0 <= k < |temperature| && temperature[k].time == time &&
                                   r.value == Celsius(temperature[k].value) &&
                                   forall j :: 0 <= j < k ==> temperature[j].time != time
  {
    match Find(temperature, time)
    case None => None
    case Some(s) => Some(Celsius(s.value))
  }

  /** `energyKwh` of a tick at `time`: the energy of the first power sample at that time, if any. */
  function EnergyAt(power: seq<Sample>, time: Time): (r: Option<Reading>)
    ensures r.None? <==> forall k :: 0 <= k < |power| ==> power[k].time != time
    ensures r.Some? ==> exists k :: 0 <= k < |power| && power[k].time == time &&
                                   r.value == MwToKwh(power[k].value) &&
                                   forall j :: 0 <= j < k ==> power[j].time != time
  {
    match Find(power, time)
    case None => None
    case Some(s) => Some(MwToKwh(s.value))
  }

  /** The totals after ticks at the times `ts`, in that order, from the start of streaming. */
  function TotalsAfter(temperature: seq<Sample>, power: seq<Sample>, ts: seq<Time>): Totals
    decreases |ts|
  {
    if ts == [] then Zero
    else
      var t := ts[|ts| - 1];
      Accumulate(TotalsAfter(temperature, power, ts[..|ts| - 1]),
                 TemperatureAt(temperature, t), EnergyAt(power, t))
  }

  /** The record published by the tick at `time` once the totals are `totals`. */
  function Normalized(temperature: seq<Sample>, power: seq<Sample>, time: Time, totals: Totals): (r: Record)
    ensures r.time == time
    ensures r.avgTemperature.None? <==> totals.countTemp == 0
    ensures r.avgTemperature.Some? ==> r.avgTemperature.value * (totals.countTemp as real) == totals.sumTemp
    ensures r.totalEnergyKWh == totals.accumulatedEnergyKWh
  {
    Record(time, TemperatureAt(temperature, time), EnergyAt(power, time),
           Average(totals), totals.accumulatedEnergyKWh)
  }

  /** The published record's `value` and `power` are the temperature and energy found at its time. */
  lemma NormalizedReadings(temperature: seq<Sample>, power: seq<Sample>, time: Time, totals: Totals)
    ensures Normalized(temperature, power, time, totals).value == TemperatureAt(temperature, time)
    ensures Normalized(temperature, power, time, totals).power == EnergyAt(power, time)
  {
  }

  /** The records published by ticks at the times `ts`, in that order, from the start of streaming. */
  function Replay(temperature: seq<Sample>, power: seq<Sample>, ts: seq<Time>): seq<Record>
    decreases |ts|
  {
    if ts == [] then []
    else
      Replay(temperature, power, ts[..|ts| - 1]) +
      [Normalized(temperature, power, ts[|ts| - 1], TotalsAfter(temperature, power, ts))]
  }

  /**
   * One record per tick: the k-th is stamped with the k-th time and carries that
   * time's temperature and energy and the totals of the first k + 1 ticks.
   */
  lemma {:induction false} ReplayShape(temperature: seq<Sample>, power: seq<Sample>, ts: seq<Time>)
    ensures |Replay(temperature, power, ts)| == |ts|
    ensures forall k :: 0 <= k < |ts| ==>
              Replay(temperature, power, ts)[k] == Normalized(temperature, power, ts[k], TotalsAfter(temperature, power, ts[..k + 1]))
    decreases |ts|
  {
    if ts != [] {
      var init := ts[..|ts| - 1];
      ReplayShape(temperature, power, init);
      forall k | 0 <= k < |init|
        ensures Replay(temperature, power, ts)[k] ==
                Normalized(temperature, power, ts[k], TotalsAfter(temperature, power, ts[..k + 1]))
      {
        assert init[..k + 1] == ts[..k + 1];
      }
      assert ts[..|ts|] == ts;
    }
  }

  /** Ticks over a sorted timeline publish records in strictly increasing time order. */
  lemma ReplayInTimeOrder(temperature: seq<Sample>, power: seq<Sample>, ts: seq<Time>)
    requires StrictlyIncreasing(ts)
    ensures |Replay(temperature, power, ts)| == |ts|
    ensures forall i, j :: 0 <= i < j < |ts| ==>
              Replay(temperature, power, ts)[i].time < Replay(temperature, power, ts)[j].time
  {
    ReplayShape(temperature, power, ts);
  }

  /** A tick at one more time `t` folds that time's temperature and energy into the totals. */
  lemma TotalsStep(temperature: seq<Sample>, power: seq<Sample>, ts: seq<Time>, t: Time)
    ensures TotalsAfter(temperature, power, ts + [t]) ==
            Accumulate(TotalsAfter(temperature, power, ts), TemperatureAt(temperature, t), EnergyAt(power, t))
  {
    assert (ts + [t])[..|ts|] == ts;
  }

  /** A tick at one more time `t` publishes one more record, built from the updated totals. */
  lemma ReplayStep(temperature: seq<Sample>, power: seq<Sample>, ts: seq<Time>, t: Time)
    ensures Replay(temperature, power, ts + [t]) ==
            Replay(temperature, power, ts) + [Normalized(temperature, power, t, TotalsAfter(temperature, power, ts + [t]))]
  {
    assert (ts + [t])[..|ts|] == ts;
  }

  /**
   * The records published from the times `ts0` on, extended by one more tick at
   * time `t`.
   */
  lemma PublishStep(temperature: seq<Sample>, power: seq<Sample>, ts0: seq<Time>, ts: seq<Time>, t: Time,
                    published: seq<Record>)
    requires Replay(temperature, power, ts) == Replay(temperature, power, ts0) + published
    ensures Replay(temperature, power, ts + [t]) ==
            Replay(temperature, power, ts0) +
            (published + [Normalized(temperature, power, t, TotalsAfter(temperature, power, ts + [t]))])
  {
    ReplayStep(temperature, power, ts, t);
  }

  /** Records stamped with consecutive times of a timeline stay so when the next time's record is appended. */
  lemma AppendStamped(times: seq<Time>, lo: nat, records: seq<Record>, r: Record)
    requires lo + |records| < |times|
    requires forall k :: 0 <= k < |records| ==> records[k].time == times[lo + k]
    requires r.time == times[lo + |records|]
    ensures forall k :: 0 <= k < |records + [r]| ==> (records + [r])[k].time == times[lo + k]
  {
  }

  /** Records stamped with consecutive times of a sorted timeline are in strictly increasing time order. */
  lemma TimesInOrder(times: seq<Time>, lo: nat, records: seq<Record>)
    requires StrictlyIncreasing(times)
    requires lo + |records| <= |times|
    requires forall k :: 0 <= k < |records| ==> records[k].time == times[lo + k]
    ensures forall i, j :: 0 <= i < j < |records| ==> records[i].time < records[j].time
  {
    forall i, j | 0 <= i < j < |records| ensures records[i].time < records[j].time {
      assert times[lo + i] < times[lo + j];
    }
  }

  /** Whether a temperature sample at that time enters the mean. */
  lemma TemperatureAtCounts(temperature: seq<Sample>, time: Time)
    ensures TemperatureAt(temperature, time).None? <==>
              forall k :: 0 <= k < |temperature| ==> temperature[k].time != time
    ensures CountsTemperature(TemperatureAt(temperature, time)) <==>
              exists k :: 0 <= k < |temperature| && temperature[k].time == time &&
                          temperature[k].value.Num? && forall j :: 0 <= j < k ==> temperature[j].time != time
  {
  }

  /** Whether a power sample at that time adds to the accumulated energy. */
  lemma EnergyAtCounts(power: seq<Sample>, time: Time)
    ensures CountsEnergy(EnergyAt(power, time)) <==>
              exists k :: 0 <= k < |power| && power[k].time == time &&
                          power[k].value.Num? && power[k].value.x != 0.0 &&
                          forall j :: 0 <= j < k ==> power[j].time != time
  {
  }

  /** The temperature count never decreases from one tick to a later one. */
  lemma {:induction false} CountNonDecreasing(temperature: seq<Sample>, power: seq<Sample>, ts: seq<Time>, n: nat)
    requires n <= |ts|
    ensures TotalsAfter(temperature, power, ts[..n]).countTemp <= TotalsAfter(temperature, power, ts).countTemp
    decreases |ts|
  {
    if n < |ts| {
      assert ts[..n] == ts[..|ts| - 1][..n];
      CountNonDecreasing(temperature, power, ts[..|ts| - 1], n);
    } else {
      assert ts[..n] == ts;
    }
  }

  /** No power sample is negative (NaN samples are ignored by the stream). */
  predicate NonNegativePower(power: seq<Sample>) {
    forall k :: 0 <= k < |power| ==> power[k].value.Num? ==> 0.0 <= power[k].value.x
  }

  /**
   * The accumulated energy never decreases from one tick to a later one, provided
   * no power sample is negative; the stream itself does not check this.
   */
  lemma {:induction false} EnergyNonDecreasing(temperature: seq<Sample>, power: seq<Sample>, ts: seq<Time>, n: nat)
    requires NonNegativePower(power)
    requires n <= |ts|
    ensures TotalsAfter(temperature, power, ts[..n]).accumulatedEnergyKWh <=
            TotalsAfter(temperature, power, ts).accumulatedEnergyKWh
    decreases |ts|
  {
    if n < |ts| {
      var init := ts[..|ts| - 1];
      assert ts[..n] == init[..n];
      EnergyNonDecreasing(temperature, power, init, n);
      var e := EnergyAt(power, ts[|ts| - 1]);
      if e.Some? {
        var s := Find(power, ts[|ts| - 1]).value;
        assert s in power;
      }
      AccumulateEnergy(TotalsAfter(temperature, power, init), TemperatureAt(temperature, ts[|ts| - 1]), e);
    } else {
      assert ts[..n] == ts;
    }
  }

  /** A single negative power sample makes the accumulated energy go down. */
  lemma NegativePowerLowersEnergy()
    ensures TotalsAfter([], [Sample(0, Num(-1.0))], [0]).accumulatedEnergyKWh < Zero.accumulatedEnergyKWh
  {
    assert [0][..0] == [];
  }

  /**
   * Two ticks over 10:00:00 and 10:00:05 with raw temperatures 2981.5 and 2982.5
   * and powers of 10 and 20 MW: 25.00 and 25.10 degrees with mean 25.05, and
   * 125/9 (about 13.89) and 250/9 kWh, accumulating to 125/3 (about 41.67) kWh.
   */
  lemma TwoTickExample()
    ensures Replay([Sample(36000, Num(2981.5)), Sample(36005, Num(2982.5))],
                   [Sample(36000, Num(10.0)), Sample(36005, Num(20.0))], [36000, 36005]) ==
            [Record(36000, Some(Num(25.0)), Some(Num(125.0 / 9.0)), Some(25.0), 125.0 / 9.0),
             Record(36005, Some(Num(25.1)), Some(Num(250.0 / 9.0)), Some(25.05), 125.0 / 3.0)]
  {
    var temperature := [Sample(36000, Num(2981.5)), Sample(36005, Num(2982.5))];
    var power := [Sample(36000, Num(10.0)), Sample(36005, Num(20.0))];
    var ts: seq<Time> := [36000, 36005];
    assert ts[..1] == [36000];
    assert [36000][..0] == [];
    assert TemperatureAt(temperature, 36005) == Some(Num(25.1)) by {
      assert Find(temperature[1..], 36005) == Some(temperature[1]);
    }
    assert EnergyAt(power, 36005) == Some(Num(250.0 / 9.0)) by {
      assert Find(power[1..], 36005) == Some(power[1]);
    }
  }

  /**
   * The service with its timer: the two series, the merged timeline, the cursor
   * `index`, the latest value of `currentValueSubject` and the three running
   * totals that `startStreaming` keeps in its closure.
   */
  class WeatherStream {
    // set once, when the data arrives, and only read afterwards
    const temperatureValues: seq<Sample>
    const powerValues: seq<Sample>
    const allTimes: seq<Time>
    var index: nat
    /** The value held by `currentValueSubject`; `None` is its initial `null`. */
    var currentValue: Option<Record>
    var sumTemp: real
    var countTemp: nat
    var accumulatedEnergyKWh: real
    /** The position where streaming started, and the times played since. */
    ghost const start: nat
    ghost var Played: seq<Time>

    /** The running totals as one value. */
    function CurrentTotals(): Totals
      reads this
    {
      Totals(sumTemp, countTemp, accumulatedEnergyKWh)
    }

    /**
     * The cursor lies within the timeline, the totals are those of
     * the ticks from `start` to `index`, and the subject holds the last record
     * published (or its initial `null`).
     */
    ghost predicate Valid()
      reads this
    {
      && start <= index <= |allTimes|
      && Played == allTimes[start..index]
      && CurrentTotals() == TotalsAfter(temperatureValues, powerValues, Played)
      && currentValue == if Played == [] then None
                         else Some(Normalized(temperatureValues, powerValues, Played[|Played| - 1], CurrentTotals()))
    }

    /**
     * The service once its data has arrived: `load` merges the series' times and
     * sets the cursor for the time of day `now`, and `startStreaming` zeroes its totals.
     */
    constructor (temperature: seq<Sample>, power: seq<Sample>, now: Time)
      ensures Valid()
      ensures temperatureValues == temperature && powerValues == power
      ensures StrictlyIncreasing(allTimes)
      ensures forall t :: t in allTimes <==> t in TimesOf(temperature) || t in TimesOf(power)
      ensures index == StartIndex(allTimes, now) && start == index
      ensures CurrentTotals() == Zero && currentValue == None && Played == []
    {
      temperatureValues := temperature;
      powerValues := power;
      var times := MergeTimeline(temperature, power);
      allTimes := times;
      index := StartIndex(times, now);
      currentValue := None;
      sumTemp, countTemp, accumulatedEnergyKWh := 0.0, 0, 0.0;
      start := index;
      Played := [];
    }

    /**
     * One tick of the timer. Past the end of the timeline it publishes nothing
     * and changes nothing; otherwise it folds the samples at the current time
     * into the totals, publishes the record for that time and moves the cursor
     * on by exactly one.
     */
    method Tick() returns (out: Option<Record>)
      requires Valid()
      modifies this
      ensures Valid()
      ensures old(index) >= |allTimes| ==>
        && out == None && index == old(index) && CurrentTotals() == old(CurrentTotals())
        && currentValue == old(currentValue) && Played == old(Played)
      ensures old(index) < |allTimes| ==>
        var time := allTimes[old(index)];
        && index == old(index) + 1 && Played == old(Played) + [time]
        && CurrentTotals() == Accumulate(old(CurrentTotals()), TemperatureAt(temperatureValues, time),
                                         EnergyAt(powerValues, time))
        && out == Some(Normalized(temperatureValues, powerValues, time, CurrentTotals()))
        && currentValue == out
    {
      if index >= |allTimes| {
        return None;
      }
      var time := allTimes[index];
      var tempC := TemperatureAt(temperatureValues, time);
      var energyKwh := EnergyAt(powerValues, time);
      assert allTimes[start..index + 1] == Played + [time];
      TotalsStep(temperatureValues, powerValues, Played, time);
      AddToTotals(tempC, energyKwh);
      var avgTemp := Average(CurrentTotals());
      var normalized := Record(time, tempC, energyKwh, avgTemp, accumulatedEnergyKWh);
      index := index + 1;
      Played := Played + [time];
      currentValue := Some(normalized);
      out := Some(normalized);
    }

    /**
     * The running totals take in one tick's temperature and energy: the
     * temperature when it is a number, the energy when it is truthy.
     */
    method AddToTotals(tempC: Option<Reading>, energyKwh: Option<Reading>)
      modifies this`sumTemp, this`countTemp, this`accumulatedEnergyKWh
      ensures CurrentTotals() == Accumulate(old(CurrentTotals()), tempC, energyKwh)
    {
      if CountsEnergy(energyKwh) {
        accumulatedEnergyKWh := accumulatedEnergyKWh + energyKwh.value.x;
      }
      if CountsTemperature(tempC) {
        sumTemp := sumTemp + tempC.value.x;
        countTemp := countTemp + 1;
      }
    }

    /**
     * The timer firing `ticks` times, with `published` the records a subscriber
     * receives: one per remaining time of the timeline, in timeline order, the
     * same records a replay from the start position gives, and nothing once the
     * timeline is exhausted.
     */
    method Run(ticks: nat) returns (published: seq<Record>)
      requires Valid()
      modifies this
      ensures Valid()
      ensures index == if old(index) + ticks <= |allTimes| then old(index) + ticks else |allTimes|
      ensures |published| == index - old(index)
      ensures Replay(temperatureValues, powerValues, Played) ==
              Replay(temperatureValues, powerValues, old(Played)) + published
      ensures forall k :: 0 <= k < |published| ==> published[k].time == allTimes[old(index) + k]
    {
      published := [];
      var n := 0;
      while n < ticks
        invariant n <= ticks
        invariant index == if old(index) + n <= |allTimes| then old(index) + n else |allTimes|
        invariant Continues(old(Played), old(index), published)
      {
        published := Fire(old(Played), old(index), published);
        n := n + 1;
      }
    }

    /**
     * The state is valid and `published`, the records received since the cursor
     * was at `i0` with the times `ts0` played, continue the replay of `ts0` and
     * carry the timeline's times from `i0` on.
     */
    ghost predicate Continues(ts0: seq<Time>, i0: nat, published: seq<Record>)
      reads this
    {
      && Valid()
      && Replay(temperatureValues, powerValues, Played) == Replay(temperatureValues, powerValues, ts0) + published
      && i0 + |published| == index
      && forall k :: 0 <= k < |published| ==> published[k].time == allTimes[i0 + k]
    }

    /** One firing within `Run`: the record of this tick, if any, is appended to `published`. */
    method Fire(ghost ts0: seq<Time>, ghost i0: nat, published: seq<Record>) returns (next: seq<Record>)
      requires Continues(ts0, i0, published)
      modifies this
      ensures index == if old(index) < |allTimes| then old(index) + 1 else old(index)
      ensures Continues(ts0, i0, next)
    {
      ghost var before := Played;
      var out := Tick();
      next := published;
      if out.Some? {
        PublishStep(temperatureValues, powerValues, ts0, before, out.value.time, published);
        AppendStamped(allTimes, i0, published, out.value);
        next := published + [out.value];
      }
    }
  }

  /**
   * What a subscriber receives from the moment the data arrives at time of day
   * `now` through `ticks` ticks of the timer: records in strictly increasing
   * time order, each for a time of one of the series and carrying that time's
   * temperature and energy, starting at or after `now` unless every time is
   * earlier, and at least one record when there is data and a tick.
   */
  method Stream(temperature: seq<Sample>, power: seq<Sample>, now: Time, ticks: nat)
    returns (published: seq<Record>)
    ensures |published| <= ticks
    ensures forall i, j :: 0 <= i < j < |published| ==> published[i].time < published[j].time
    ensures forall k :: 0 <= k < |published| ==>
              published[k].time in TimesOf(temperature) || published[k].time in TimesOf(power)
    ensures forall k :: 0 <= k < |published| ==>
              && published[k].value == TemperatureAt(temperature, published[k].time)
              && published[k].power == EnergyAt(power, published[k].time)
    ensures (exists t :: (t in TimesOf(temperature) || t in TimesOf(power)) && now <= t) ==>
              forall k :: 0 <= k < |published| ==> now <= published[k].time
    ensures 0 < ticks && (temperature != [] || power != []) ==> published != []
  {
    ghost var times, lo, played;
    published, times, lo, played := StreamFromStart(temperature, power, now, ticks);
    PublishedFields(temperature, power, played, published);
    PlaybackTimes(temperature, power, now, ticks, times, lo, played, published);
  }

  /**
   * A fresh service run for `ticks` ticks, described by its timeline `times`, its
   * start position `lo` and the times `played`.
   */
  method StreamFromStart(temperature: seq<Sample>, power: seq<Sample>, now: Time, ticks: nat)
    returns (published: seq<Record>, ghost times: seq<Time>, ghost lo: nat, ghost played: seq<Time>)
    ensures StrictlyIncreasing(times)
    ensures forall t :: t in times <==> t in TimesOf(temperature) || t in TimesOf(power)
    ensures lo == StartIndex(times, now)
    ensures |published| == if lo + ticks <= |times| then ticks else |times| - lo
    ensures played == times[lo..lo + |published|]
    ensures Replay(temperature, power, played) == published
  {
    var stream := new WeatherStream(temperature, power, now);
    assert Replay(temperature, power, stream.Played) == [];
    published := stream.Run(ticks);
    times, lo, played := stream.allTimes, stream.start, stream.Played;
  }

  /** The records of a replay carry their tick's time, temperature and energy. */
  lemma PublishedFields(temperature: seq<Sample>, power: seq<Sample>, ts: seq<Time>, published: seq<Record>)
    requires Replay(temperature, power, ts) == published
    ensures |published| == |ts|
    ensures forall k :: 0 <= k < |ts| ==> published[k].time == ts[k]
    ensures forall k :: 0 <= k < |published| ==>
              && published[k].value == TemperatureAt(temperature, published[k].time)
              && published[k].power == EnergyAt(power, published[k].time)
  {
    ReplayShape(temperature, power, ts);
  }

  /**
   * The times behind `Stream`: records stamped with the timeline's times from the
   * start position on are in order, come from the series, and are at or after
   * `now` unless every time is earlier.
   */
  lemma PlaybackTimes(temperature: seq<Sample>, power: seq<Sample>, now: Time, ticks: nat,
                      times: seq<Time>, lo: nat, played: seq<Time>, published: seq<Record>)
    requires StrictlyIncreasing(times)
    requires forall t :: t in times <==> t in TimesOf(temperature) || t in TimesOf(power)
    requires lo == StartIndex(times, now)
    requires |published| == if lo + ticks <= |times| then ticks else |times| - lo
    requires played == times[lo..lo + |published|]
    requires forall k :: 0 <= k < |published| ==> published[k].time == played[k]
    ensures |published| <= ticks
    ensures forall i, j :: 0 <= i < j < |published| ==> published[i].time < published[j].time
    ensures forall k :: 0 <= k < |published| ==>
              published[k].time in TimesOf(temperature) || published[k].time in TimesOf(power)
    ensures (exists t :: (t in TimesOf(temperature) || t in TimesOf(power)) && now <= t) ==>
              forall k :: 0 <= k < |published| ==> now <= published[k].time
    ensures 0 < ticks && (temperature != [] || power != []) ==> published != []
  {
    forall k | 0 <= k < |published| ensures published[k].time == times[lo + k] {
      assert played[k] == times[lo + k];
    }
    TimesInOrder(times, lo, published);
    forall k | 0 <= k < |published| ensures published[k].time in times {
      assert published[k].time == times[lo + k];
    }
    if exists t :: (t in TimesOf(temperature) || t in TimesOf(power)) && now <= t {
      var t :| (t in TimesOf(temperature) || t in TimesOf(power)) && now <= t;
      assert t in times;
      StartIndexIsLowerBound(times, now);
    }
    if temperature != [] {
      assert temperature[0].time in TimesOf(temperature);
    } else if power != [] {
      assert power[0].time in TimesOf(power);
    }
  }
}
