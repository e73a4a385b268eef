/**
 * Time arithmetic helper of the call-billing core (calls/core/util/helpers.py).
 *
 * Timestamps are whole seconds (UTC). A Python `timedelta` normalises a
 * difference `d` into `days = d div 86400` and `seconds = d mod 86400`
 * (floor division, so `seconds` is never negative); Dafny's `/` and `%`
 * with a positive divisor compute exactly that pair.
 */
module Helpers {

  const SecondsPerDay := 86400
  const SecondsPerHour := 3600
  const SecondsPerMinute := 60

  /** The dictionary `{'hours': h, 'minutes': m, 'seconds': s}`. */
  datatype Hms = Hms(hours: int, minutes: int, seconds: int)

  const ZeroHms := Hms(0, 0, 0)

  /** Total number of seconds an `Hms` stands for. */
  function TotalSeconds(t: Hms): int {
    t.hours * SecondsPerHour + t.minutes * SecondsPerMinute + t.seconds
  }

  /** Minutes and seconds are both proper remainders. */
  predicate Normalised(t: Hms) {
    0 <= t.minutes < 60 && 0 <= t.seconds < 60
  }

  /**
   * `time_between`: the difference `end - start`, as hours, minutes and
   * seconds, with whole days folded into the hours.
   */
  function TimeBetween(start: int, end: int): (r: Hms)
    ensures TotalSeconds(r) == end - start
    ensures Normalised(r)
    ensures end >= start ==> r.hours >= 0
  {
    var delta := end - start;
    // timedelta normalisation: delta == days * 86400 + seconds, 0 <= seconds < 86400
    var days, seconds := delta / SecondsPerDay, delta % SecondsPerDay;
    var hours, remainder := seconds / SecondsPerHour, seconds % SecondsPerHour;
    var minutes, secs := remainder / SecondsPerMinute, remainder % SecondsPerMinute;
    Hms(hours + days * 24, minutes, secs)
  }

  /**
   * The normalised form is unique: any `Hms` with proper minute and second
   * remainders that adds up to `end - start` is the one `TimeBetween` gives.
   */
  lemma TimeBetweenUnique(start: int, end: int, t: Hms)
    requires Normalised(t) && TotalSeconds(t) == end - start
    ensures t == TimeBetween(start, end)
  {
  }

  /** The result depends only on the difference: shifting both ends changes nothing. */
  lemma TimeBetweenShift(start: int, end: int, shift: int)
    ensures TimeBetween(start + shift, end + shift) == TimeBetween(start, end)
  {
    var r := TimeBetween(start + shift, end + shift);
    TimeBetweenUnique(start, end, r);
  }

  /** Equal timestamps give 0h0m0s. */
  lemma TimeBetweenSame(t: int)
    ensures TimeBetween(t, t) == ZeroHms
  {
    TimeBetweenUnique(t, t, ZeroHms);
  }

  /** Whole days are folded into the hours: one day and five seconds is 24h0m5s. */
  lemma TimeBetweenFoldsDays(start: int)
    ensures TimeBetween(start, start + SecondsPerDay + 5) == Hms(24, 0, 5)
  {
    TimeBetweenUnique(start, start + SecondsPerDay + 5, Hms(24, 0, 5));
  }

  /** 10:10:20 to 11:15:25 on the same day is 1h5m5s. */
  lemma TimeBetweenExample(day: int)
    ensures TimeBetween(day * SecondsPerDay + 36620, day * SecondsPerDay + 40525) == Hms(1, 5, 5)
  {
    TimeBetweenUnique(day * SecondsPerDay + 36620, day * SecondsPerDay + 40525, Hms(1, 5, 5));
  }
}
