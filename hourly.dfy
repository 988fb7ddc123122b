/**
 * The logger's wake-up time (main.go:113-116): `now.Truncate(time.Hour).Add(time.Hour)` and
 * the sleep until it. Times are nanoseconds counted from an origin that lies on an hour
 * boundary, as Go's zero time does.
 */
module Hourly {

  /** `time.Hour` in nanoseconds. */
  const HOUR: nat := 3_600_000_000_000

  /** The next hour boundary: `now` rounded down to a multiple of `HOUR`, plus `HOUR`. */
  function NextHour(now: nat): (next: nat)
    ensures next % HOUR == 0
    ensures now < next <= now + HOUR
  {
    now - now % HOUR + HOUR
  }

  /** `next.Sub(now)`: the logger sleeps between one nanosecond and one hour, a full hour exactly on a boundary. */
  function SleepDuration(now: nat): (d: nat)
    ensures 1 <= d <= HOUR
    ensures d == HOUR <==> now % HOUR == 0
    ensures (now + d) % HOUR == 0
  {
    NextHour(now) - now
  }

  /** No multiple of `HOUR` lies strictly between `now` and the wake-up time: it is the first boundary after `now`. */
  lemma NextHourIsFirst(now: nat, k: int)
    requires now < k * HOUR
    ensures NextHour(now) <= k * HOUR
  {
    var q := now / HOUR;
    assert now == q * HOUR + now % HOUR;
    assert NextHour(now) == (q + 1) * HOUR;
    assert k > q;
  }

  /** Waking exactly on the boundary, the following cycle sleeps a full hour: the schedule does not drift. */
  lemma WakeOnBoundary(now: nat)
    ensures SleepDuration(NextHour(now)) == HOUR
    ensures NextHour(NextHour(now)) == NextHour(now) + HOUR
  {
  }
}
