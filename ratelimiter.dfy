/** RateLimiter: a virtual clock that spaces permits at least one interval apart.
    The clock (System.nanoTime) is a parameter, and an acquire is one step: the
    compare-and-set retry loop always succeeds on its first try when a single
    caller is modelled. */
module Limiter {
  import opened JavaText

  const NANOS_PER_SECOND: nat := 1_000_000_000

  /** The constructor's nanosPerPermit: a second divided by the rate, where a rate
      below 1 counts as 1. */
  function Interval(permitsPerSecond: int): (r: nat)
    ensures r <= NANOS_PER_SECOND
    ensures permitsPerSecond <= 1 ==> r == NANOS_PER_SECOND
    ensures permitsPerSecond <= NANOS_PER_SECOND ==> r >= 1
  {
    NANOS_PER_SECOND / Max(1, permitsPerSecond)
  }

  /** The instant an acquire at clock reading `now` is granted. */
  function Target(nextFree: int, now: int): (t: int)
    ensures t >= nextFree && t >= now
    ensures t == nextFree || t == now
  {
    Max(nextFree, now)
  }

  /** How long that acquire parks: never negative, and zero when the schedule is
      not ahead of the clock. */
  function Wait(nextFree: int, now: int): (w: int)
    ensures w >= 0
    ensures w == 0 <==> nextFree <= now
    ensures now + w == Target(nextFree, now)
  {
    Target(nextFree, now) - now
  }

  /** The grant instants of successive acquires at clock readings `nows`, starting
      from the schedule value `nextFree`. */
  function Grants(nextFree: int, interval: nat, nows: seq<int>): (g: seq<int>)
    ensures |g| == |nows|
    decreases |nows|
  {
    if nows == [] then []
    else
      var t := Target(nextFree, nows[0]);
      [t] + Grants(t + interval, interval, nows[1..])
  }

  /** Whatever the clock readings, the i-th and j-th grants are at least (j - i)
      intervals apart, and every grant is at or after the schedule value. */
  lemma {:induction false} GrantsSpaced(nextFree: int, interval: nat, nows: seq<int>, i: nat, j: nat)
    requires i <= j < |nows|
    ensures Grants(nextFree, interval, nows)[i] >= nextFree
    ensures Grants(nextFree, interval, nows)[j] - Grants(nextFree, interval, nows)[i] >= (j - i) * interval
    decreases |nows|
  {
    var g := Grants(nextFree, interval, nows);
    var t := Target(nextFree, nows[0]);
    if j > 0 {
      var rest := Grants(t + interval, interval, nows[1..]);
      assert g[1..] == rest;
      if i == 0 {
        GrantsSpaced(t + interval, interval, nows[1..], 0, j - 1);
        assert g[j] == rest[j - 1] >= t + interval + (j - 1) * interval;
      } else {
        GrantsSpaced(t + interval, interval, nows[1..], i - 1, j - 1);
        assert g[i] == rest[i - 1] && g[j] == rest[j - 1];
      }
    }
  }

  /** k acquires in a row span at least (k - 1) intervals. */
  lemma GrantsSpan(nextFree: int, interval: nat, nows: seq<int>)
    requires |nows| > 0
    ensures var g := Grants(nextFree, interval, nows);
      g[|g| - 1] - g[0] >= (|nows| - 1) * interval
  {
    GrantsSpaced(nextFree, interval, nows, 0, |nows| - 1);
  }

  class RateLimiter {
    const nanosPerPermit: nat
    var nextFreeNanos: int

    /** The schedule starts at the clock reading taken at construction. */
    constructor (permitsPerSecond: int, now: int)
      ensures nanosPerPermit == Interval(permitsPerSecond) && nextFreeNanos == now
    {
      nanosPerPermit := Interval(permitsPerSecond);
      nextFreeNanos := now;
    }

    /** RateLimiter.acquire at clock reading `now`: the permit is granted at
        max(nextFree, now), the caller parks for the difference, and the schedule
        moves one interval past the grant. The schedule strictly advances unless
        the interval is 0 (a rate above 10^9 per second). */
    method Acquire(now: int) returns (granted: int, waitNanos: int)
      modifies this
      ensures granted == Target(old(nextFreeNanos), now)
      ensures waitNanos == Wait(old(nextFreeNanos), now)
      ensures nextFreeNanos == granted + nanosPerPermit
      ensures nanosPerPermit > 0 ==> nextFreeNanos > old(nextFreeNanos)
    {
      var prev := nextFreeNanos;
      var target := Max(prev, now);
      var next := target + nanosPerPermit;
      nextFreeNanos := next;
      granted := target;
      waitNanos := target - now;
    }

    /** RateLimiter.close: does nothing. */
    method Close()
      ensures unchanged(this)
    {
    }

    /** RateLimiter.shutdown: does nothing. */
    method Shutdown()
      ensures unchanged(this)
    {
    }
  }
}
