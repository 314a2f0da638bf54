/**
  Time as the firmware sees it: an `Instant` is a 64-bit count of ticks of a
  1 MHz clock, a `Duration` is a tick count of the same width, and the
  arithmetic the code uses saturates instead of wrapping.  Clock readings are
  never produced here: every reading is an input.
 */
module Clock {
  const TicksPerSecond: nat := 1_000_000
  const MaxTicks: nat := 0xFFFF_FFFF_FFFF_FFFF

  type Ticks = t: int | 0 <= t <= MaxTicks

  /** `Duration::from_secs`: the ticks of `s` whole seconds. */
  function Seconds(s: nat): nat {
    s * 1_000_000
  }

  /** `Duration::from_millis`: the ticks of `ms` milliseconds. */
  function Millis(ms: nat): nat {
    ms * 1_000
  }

  /** `Instant::saturating_add`: the sum, or the last representable instant when it overflows. */
  function SaturatingAdd(now: Ticks, d: Ticks): (r: Ticks)
    ensures now <= r
    ensures r == now + d || r == MaxTicks
    ensures now + d <= MaxTicks <==> r == now + d
  {
    if now + d > MaxTicks then MaxTicks else now + d
  }

  /** `Instant::duration_since`; the model saturates at zero when `earlier` is later, where embassy would panic. */
  function DurationSince(now: Ticks, earlier: Ticks): (d: Ticks)
    ensures earlier <= now ==> earlier + d == now
    ensures now < earlier ==> d == 0
  {
    if now < earlier then 0 else now - earlier
  }

  /** `Duration::as_secs`: whole seconds, rounded down. */
  function AsSecs(d: Ticks): (s: nat)
    ensures s * TicksPerSecond <= d < (s + 1) * TicksPerSecond
  {
    d / 1_000_000
  }

  /** `Duration::as_millis`: whole milliseconds, rounded down. */
  function AsMillis(d: Ticks): (ms: nat)
    ensures ms * 1000 <= d < (ms + 1) * 1000
  {
    d / 1_000
  }

  /** A whole number of seconds survives `from_secs` followed by `as_secs` or `as_millis`. */
  lemma SecondsReadBack(s: nat)
    requires Seconds(s) <= MaxTicks
    ensures AsSecs(Seconds(s)) == s
    ensures AsMillis(Seconds(s)) == 1000 * s
  {
  }

  /** A number of milliseconds survives `from_millis` followed by `as_millis`. */
  lemma MillisReadBack(ms: nat)
    requires Millis(ms) <= MaxTicks
    ensures AsMillis(Millis(ms)) == ms
  {
  }
}
