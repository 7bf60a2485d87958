/**
 * Value types shared by the weather stream and the dashboard
 * (the interfaces of data-weather.model.ts and the record the stream publishes).
 */
module WeatherModel {

  /** The conventional optional value; `None` stands for JavaScript's `null`/`undefined`. */
  datatype Option<+T> = None | Some(value: T)

  /**
   * A time of day in seconds since midnight. It stands for a zero-padded
   * "HH:MM:SS" string; for that format, string order and chronological order agree
   * (see module TimeOfDay).
   */
  type Time = t: int | 0 <= t < 86400

  /** The result of `Number(...)` on a sample value: a finite number or NaN. */
  datatype Reading = Num(x: real) | NaN

  /** One parsed `WeatherValue`: a time and its (possibly NaN) numeric value. */
  datatype Sample = Sample(time: Time, value: Reading)

  /**
   * The object published on each tick: the time, the temperature in degrees
   * Celsius (`value`), the energy of this tick in kWh (`power`), the running mean
   * temperature and the accumulated energy.
   */
  datatype Record = Record(
    time: Time,
    value: Option<Reading>,
    power: Option<Reading>,
    avgTemperature: Option<real>,
    totalEnergyKWh: real)
}
