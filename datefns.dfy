/** The date helpers the handlers use, on instants written as integer
    milliseconds since the epoch, in one fixed time zone. */
module DateFns {

  type Time = int

  const HOUR: int := 3_600_000
  const DAY: int := 86_400_000

  /** startOfHour: the latest whole hour at or before `t`. */
  function StartOfHour(t: Time): (r: Time)
    ensures r % HOUR == 0
    ensures r <= t < r + HOUR
  {
    t - t % HOUR
  }

  /** startOfDay: the latest midnight at or before `t`. */
  function StartOfDay(t: Time): (r: Time)
    ensures r % DAY == 0
    ensures r <= t < r + DAY
  {
    t - t % DAY
  }

  /** endOfDay: the last millisecond (23:59:59.999) of the day holding `t`. */
  function EndOfDay(t: Time): (r: Time)
    ensures (r + 1) % DAY == 0
    ensures StartOfDay(t) <= t <= r
    ensures r - StartOfDay(t) == DAY - 1
  {
    StartOfDay(t) + DAY - 1
  }

  /** The earliest whole hour at or after `t`. */
  function NextWholeHour(t: Time): Time {
    if t % HOUR == 0 then t else StartOfHour(t) + HOUR
  }

  /** The start of the hour of `d` is at or after `now` exactly when `d` is at
      or after the first whole hour not before `now`. */
  lemma StartOfHourNotBefore(d: Time, now: Time)
    ensures StartOfHour(d) >= now <==> d >= NextWholeHour(now)
  {
  }
}
