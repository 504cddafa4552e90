/**
 * `tsSubtract` of the relay gateway (src/apps/gateway.c): the delay
 * between two packet timestamps, clamped at zero.
 */
module Gateway {

  /** `struct timespec`: seconds and nanoseconds. */
  datatype TimeSpec = TimeSpec(sec: int, nsec: int)

  const NanosPerSec: int := 1_000_000_000
  /** `LONG_MAX` on a 64-bit host. */
  const LongMax: int := 0x7FFF_FFFF_FFFF_FFFF

  /** The fields are in the ranges `nanosleep` accepts for nanoseconds. */
  predicate Normalised(t: TimeSpec)
  {
    0 <= t.nsec < NanosPerSec
  }

  /** The instant as one number of nanoseconds. */
  function Nanos(t: TimeSpec): int
  {
    t.sec * NanosPerSec + t.nsec
  }

  /** The normalised timespec for a non-negative number of nanoseconds. */
  function FromNanos(n: nat): (t: TimeSpec)
    ensures Normalised(t) && Nanos(t) == n
  {
    TimeSpec(n / NanosPerSec, n % NanosPerSec)
  }

  /** `time1 <= time2` as the source tests it: on seconds first, then nanoseconds. */
  predicate NotLater(t1: TimeSpec, t2: TimeSpec)
  {
    t1.sec < t2.sec || (t1.sec == t2.sec && t1.nsec <= t2.nsec)
  }

  /**
   * `tsSubtract(time1, time2)`: zero when `time1 <= time2`, otherwise the
   * exact difference, borrowing one second when the nanoseconds would go
   * negative.
   */
  function TsSubtract(t1: TimeSpec, t2: TimeSpec): (r: TimeSpec)
    ensures NotLater(t1, t2) ==> r == TimeSpec(0, 0)
    ensures !NotLater(t1, t2) ==> Nanos(r) == Nanos(t1) - Nanos(t2)
    ensures Normalised(t1) && Normalised(t2) ==> Normalised(r) && r.sec >= 0
  {
    if NotLater(t1, t2) then TimeSpec(0, 0)
    else if t1.nsec < t2.nsec then TimeSpec(t1.sec - t2.sec - 1, t1.nsec + NanosPerSec - t2.nsec)
    else TimeSpec(t1.sec - t2.sec, t1.nsec - t2.nsec)
  }

  /** On normalised times the source's field-wise test is the order of instants. */
  lemma NotLaterIsInstantOrder(t1: TimeSpec, t2: TimeSpec)
    requires Normalised(t1) && Normalised(t2)
    ensures NotLater(t1, t2) <==> Nanos(t1) <= Nanos(t2)
  {
  }

  /**
   * On normalised times `tsSubtract` is the difference of the two instants
   * clamped at zero, written back as a normalised timespec.
   */
  lemma TsSubtractIsClampedDifference(t1: TimeSpec, t2: TimeSpec)
    requires Normalised(t1) && Normalised(t2)
    ensures TsSubtract(t1, t2) == FromNanos(if Nanos(t1) <= Nanos(t2) then 0 else Nanos(t1) - Nanos(t2))
  {
  }

  /**
   * The callers start with `last_time = (-1, LONG_MAX)`, which is not
   * normalised: the first delay, for any timestamp read from the file,
   * has negative nanoseconds.
   */
  lemma FirstDelayNotNormalised(t: TimeSpec)
    requires Normalised(t) && t.sec >= 0
    ensures TsSubtract(t, TimeSpec(-1, LongMax)).nsec < 0
  {
  }
}
