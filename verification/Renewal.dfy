/**
  Lease renewal: how often a held slot is renewed, for how long, and why an on-time renewal never lets
  the lease lapse before the lifetime limit.  Intervals are in milliseconds unless named otherwise.
 */
module Renewal {
  import opened Options

  datatype ConcurrencyConfig = ConcurrencyConfig(leaseSeconds: real, renewIntervalSeconds: real)

  function Max(a: real, b: real): real { if a < b then b else a }
  function Min(a: real, b: real): real { if a < b then a else b }

  /** A configured number; `None` stands for one that does not parse to a finite number. */
  function NormalizeNumber(value: Option<real>, fallback: real, allowZero: bool, min: real): real {
    if value.None? then fallback
    else if allowZero && value.value == 0.0 then 0.0
    else if value.value < min then min
    else value.value
  }

  function GetConcurrencyConfig(lease: Option<real>, renew: Option<real>): ConcurrencyConfig {
    ConcurrencyConfig(NormalizeNumber(lease, 300.0, false, 30.0), NormalizeNumber(renew, 30.0, true, 0.0))
  }

  /** A zero lease counts as unset. */
  function LeaseSeconds(cfg: ConcurrencyConfig): real {
    Max(if cfg.leaseSeconds == 0.0 then 300.0 else cfg.leaseSeconds, 30.0)
  }

  /** Zero disables renewal; otherwise at least 15 s and at most 5 s less than the lease. */
  function RenewIntervalSeconds(cfg: ConcurrencyConfig): real {
    if cfg.renewIntervalSeconds <= 0.0 then 0.0
    else Min(Max(cfg.renewIntervalSeconds, 15.0), Max(LeaseSeconds(cfg) - 5.0, 15.0))
  }

  function RenewIntervalMs(cfg: ConcurrencyConfig): real
    requires RenewIntervalSeconds(cfg) > 0.0
  {
    Max(RenewIntervalSeconds(cfg) * 1000.0, 15000.0)
  }

  /** For every configuration the renewal period leaves at least five seconds of the lease. */
  lemma RenewalWithinLease(lease: Option<real>, renew: Option<real>)
    ensures var cfg := GetConcurrencyConfig(lease, renew);
            RenewIntervalSeconds(cfg) > 0.0 ==>
              15000.0 <= RenewIntervalMs(cfg) <= LeaseSeconds(cfg) * 1000.0 - 5000.0
  {
    var cfg := GetConcurrencyConfig(lease, renew);
    assert LeaseSeconds(cfg) >= 30.0;
  }

  function Distance(a: real, b: real): real { if a < b then b - a else a - b }

  /**
    The configuration is honoured as far as it is safe: an unset lease counts as 300 s and a shorter one than
    30 s as 30 s; renewal is off exactly when it is set to zero or less; otherwise its period is the value
    from 15 s to five seconds less than the lease that is nearest to the one set, or to 30 s if none is.
   */
  lemma RenewalHonoursConfig(lease: Option<real>, renew: Option<real>, other: real)
    ensures var cfg := GetConcurrencyConfig(lease, renew);
            var leaseSeconds, interval := LeaseSeconds(cfg), RenewIntervalSeconds(cfg);
            && (lease.None? ==> leaseSeconds == 300.0)
            && (lease.Some? ==> leaseSeconds == if lease.value > 30.0 then lease.value else 30.0)
            && (interval == 0.0 <==> renew.Some? && renew.value <= 0.0)
            && (interval != 0.0 ==>
                  var wanted := if renew.Some? then renew.value else 30.0;
                  && 15.0 <= interval <= leaseSeconds - 5.0 && RenewIntervalMs(cfg) == interval * 1000.0
                  && (15.0 <= other <= leaseSeconds - 5.0 ==> Distance(interval, wanted) <= Distance(other, wanted)))
  {
  }

  /** The smallest whole number not below `x`. */
  function Ceil(x: real): int {
    if x == x.Floor as real then x.Floor else x.Floor + 1
  }

  function MaxRefreshCount(lifetimeMinutes: real, intervalMs: real): int
    requires intervalMs > 0.0
  {
    var n := Ceil(lifetimeMinutes * 60.0 * 1000.0 / intervalMs);
    if n < 1 then 1 else n
  }

  datatype Action = Nothing | Refresh | Expire

  datatype TimerState = TimerState(refreshCount: nat, stopped: bool)

  /** One tick: count, and renew unless that was one too many. */
  function Tick(maxRefreshCount: nat, t: TimerState): (TimerState, Action) {
    if t.stopped then (t, Nothing)
    else if t.refreshCount + 1 > maxRefreshCount then (TimerState(t.refreshCount + 1, true), Expire)
    else (TimerState(t.refreshCount + 1, false), Refresh)
  }

  /** The renewal timer of one held slot. */
  class RenewalTimer {
    const maxRefreshCount: nat
    var refreshCount: nat
    var stopped: bool

    function Current(): TimerState
      reads this
    {
      TimerState(refreshCount, stopped)
    }

    constructor (maxRefreshCount: nat)
      ensures Current() == TimerState(0, false) && this.maxRefreshCount == maxRefreshCount
    {
      this.maxRefreshCount := maxRefreshCount;
      refreshCount, stopped := 0, false;
    }

    method OnTick() returns (action: Action)
      modifies this
      ensures (Current(), action) == Tick(maxRefreshCount, old(Current()))
    {
      if stopped { return Nothing; }
      refreshCount := refreshCount + 1;
      if refreshCount > maxRefreshCount {
        stopped := true;
        return Expire;
      }
      action := Refresh;
    }

    method Stop()
      modifies this
      ensures stopped && refreshCount == old(refreshCount)
    {
      stopped := true;
    }
  }

  /** A timer that nobody stops, after `n` ticks. */
  function TimerAfter(maxRefreshCount: nat, n: nat): TimerState {
    if n == 0 then TimerState(0, false) else Tick(maxRefreshCount, TimerAfter(maxRefreshCount, n - 1)).0
  }

  /** What its ticks do, the first being number 0. */
  function ActionAt(maxRefreshCount: nat, i: nat): Action {
    Tick(maxRefreshCount, TimerAfter(maxRefreshCount, i)).1
  }

  /** The timer renews at each of the first `maxRefreshCount` ticks, expires at the next, and then rests. */
  lemma {:induction false} TimerLife(maxRefreshCount: nat, n: nat)
    ensures TimerAfter(maxRefreshCount, n)
         == if n <= maxRefreshCount then TimerState(n, false) else TimerState(maxRefreshCount + 1, true)
    ensures ActionAt(maxRefreshCount, n)
         == if n < maxRefreshCount then Refresh else if n == maxRefreshCount then Expire else Nothing
  {
    if n > 0 { TimerLife(maxRefreshCount, n - 1); }
  }

  /** The timer holds the slot for at least the configured lifetime and less than one interval more. */
  lemma LifetimeCovered(lifetimeMinutes: real, intervalMs: real)
    requires intervalMs >= 15000.0 && lifetimeMinutes > 0.0
    ensures var n := MaxRefreshCount(lifetimeMinutes, intervalMs);
            && lifetimeMinutes * 60000.0 <= n as real * intervalMs
            && n as real * intervalMs < lifetimeMinutes * 60000.0 + intervalMs
  {
    var x := lifetimeMinutes * 60.0 * 1000.0 / intervalMs;
    var n := MaxRefreshCount(lifetimeMinutes, intervalMs) as real;
    assert x > 0.0 && x <= n < x + 1.0;
    assert x * intervalMs == lifetimeMinutes * 60000.0;
    ScaleBounds(x, n, intervalMs);
  }

  /** A product by name, so that the steps below stay linear. */
  function Times(a: real, b: real): real { a * b }

  lemma ScaleBounds(x: real, n: real, scale: real)
    requires x <= n < x + 1.0 && scale > 0.0
    ensures Times(x, scale) <= Times(n, scale) < Times(x, scale) + scale
  {
    Monotone(x, n, scale);
    MonotoneStrict(n, x + 1.0, scale);
    OneMore(x, scale);
    hide Times;
  }

  lemma Monotone(a: real, b: real, c: real)
    requires a <= b && c > 0.0
    ensures Times(a, c) <= Times(b, c)
  {
    NotNegative(b - a, c);
  }

  lemma MonotoneStrict(a: real, b: real, c: real)
    requires a < b && c > 0.0
    ensures Times(a, c) < Times(b, c)
  {
    Positive(b - a, c);
  }

  lemma OneMore(a: real, b: real)
    ensures Times(a + 1.0, b) == Times(a, b) + b
  {
  }

  lemma NotNegative(a: real, b: real)
    requires a >= 0.0 && b > 0.0
    ensures a * b >= 0.0
  {
  }

  lemma Positive(a: real, b: real)
    requires a > 0.0 && b > 0.0
    ensures a * b > 0.0
  {
  }
}
