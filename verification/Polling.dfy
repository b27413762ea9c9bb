/**
  The waiting loop of a queued request: exponential backoff with jitter, insert-then-check polling, and
  the clean-up that always runs.
 */
module Polling {
  import opened Leases
  import opened Options

  const POLL_INTERVAL_MS: real := 200.0
  const MAX_POLL_INTERVAL_MS: real := 2000.0
  const BACKOFF_FACTOR: real := 1.5
  const JITTER_RATIO: real := 0.2

  /** A random number as the runtime draws it. */
  type Draw = u: real | 0.0 <= u < 1.0

  /** The interval after `interval`, for one random draw. */
  function NextInterval(interval: real, u: Draw): real {
    var backed := interval * BACKOFF_FACTOR;
    var next := backed + backed * JITTER_RATIO * (u * 2.0 - 1.0);
    var capped := if next < MAX_POLL_INTERVAL_MS then next else MAX_POLL_INTERVAL_MS;
    if capped < 1.0 then 1.0 else capped
  }

  /** The interval slept after poll `i`. */
  function Interval(draws: nat -> Draw, i: nat): real {
    if i == 0 then POLL_INTERVAL_MS else NextInterval(Interval(draws, i - 1), draws(i - 1))
  }

  /** One update grows the interval at least by a fifth, until the cap. */
  lemma OneUpdate(interval: real, u: Draw)
    requires POLL_INTERVAL_MS <= interval <= MAX_POLL_INTERVAL_MS
    ensures NextInterval(interval, u) <= MAX_POLL_INTERVAL_MS
    ensures NextInterval(interval, u) >= MAX_POLL_INTERVAL_MS || NextInterval(interval, u) >= 1.2 * interval
  {
    var backed := interval * BACKOFF_FACTOR;
    var swing := backed * JITTER_RATIO;
    assert swing * (u * 2.0 - 1.0) >= -swing by {
      assert swing * (u * 2.0) >= 0.0;
      assert swing * (u * 2.0 - 1.0) == swing * (u * 2.0) - swing;
    }
    assert backed - swing == 1.2 * interval;
  }

  /**
    From the first interval on, the next one is the present one times a factor between 1.2 and 1.8 that the
    draw picks evenly, or the cap if that is less; the lower bound of one millisecond never matters.
   */
  lemma NextByFactor(interval: real, u: Draw)
    requires POLL_INTERVAL_MS <= interval <= MAX_POLL_INTERVAL_MS
    ensures var grown := interval * (1.2 + 0.6 * u);
            && 1.2 * interval <= grown < 1.8 * interval
            && NextInterval(interval, u) == if grown > 2000.0 then 2000.0 else grown
  {
    GrownBy(interval, u);
    OneUpdate(interval, u);
  }

  lemma GrownBy(interval: real, u: Draw)
    requires interval >= 1.0
    ensures var backed := interval * 1.5;
            backed + backed * 0.2 * (u * 2.0 - 1.0) == interval * (1.2 + 0.6 * u)
    ensures 1.2 * interval <= interval * (1.2 + 0.6 * u) < 1.8 * interval
  {
    var iu := interval * u;
    assert interval * (1.2 + 0.6 * u) == 1.2 * interval + 0.6 * iu;
    assert 0.0 <= iu < interval;
    var backed := interval * 1.5;
    assert backed * 0.2 * (u * 2.0 - 1.0) == 0.6 * iu - 0.3 * interval by {
      assert backed * 0.2 == 0.3 * interval;
      assert 0.3 * interval * (u * 2.0 - 1.0) == 0.6 * (interval * u) - 0.3 * interval;
    }
  }

  /** The slowest possible growth: a fifth at each update. */
  function SlowestGrowth(i: nat): real {
    if i == 0 then POLL_INTERVAL_MS else 1.2 * SlowestGrowth(i - 1)
  }

  lemma {:induction false} IntervalBounds(draws: nat -> Draw, i: nat)
    ensures Interval(draws, 0) == 200.0 && 200.0 <= Interval(draws, i) <= 2000.0
    ensures Interval(draws, i) == MAX_POLL_INTERVAL_MS || Interval(draws, i) >= SlowestGrowth(i)
    ensures SlowestGrowth(i) >= POLL_INTERVAL_MS
  {
    if i > 0 {
      IntervalBounds(draws, i - 1);
      OneUpdate(Interval(draws, i - 1), draws(i - 1));
    }
  }

  /** The interval never shrinks, whatever the jitter. */
  lemma {:induction false} IntervalGrows(draws: nat -> Draw, i: nat, j: nat)
    requires i <= j
    ensures Interval(draws, i) <= Interval(draws, j)
  {
    if i < j {
      IntervalBounds(draws, j - 1);
      OneUpdate(Interval(draws, j - 1), draws(j - 1));
      IntervalGrows(draws, i, j - 1);
    }
  }

  lemma SlowestReachesCap()
    ensures SlowestGrowth(13) >= MAX_POLL_INTERVAL_MS
  {
    assert SlowestGrowth(4) == 414.72;
    assert SlowestGrowth(8) >= 859.9;
    assert SlowestGrowth(12) >= 1783.0;
  }

  /** Thirteen updates reach the cap for every jitter sequence. */
  lemma CapReached(draws: nat -> Draw, i: nat)
    requires i >= 13
    ensures Interval(draws, i) == MAX_POLL_INTERVAL_MS
  {
    IntervalBounds(draws, 13);
    SlowestReachesCap();
    IntervalGrows(draws, 13, i);
    IntervalBounds(draws, i);
  }

  /** At least this much time has passed before poll `i`. */
  function Slept(draws: nat -> Draw, i: nat): real {
    if i == 0 then 0.0 else Slept(draws, i - 1) + Interval(draws, i - 1)
  }

  lemma {:induction false} SleptAtLeast(draws: nat -> Draw, i: nat)
    ensures Slept(draws, i) >= 2000.0 * (i as real - 13.0) && Slept(draws, i) >= 0.0
  {
    if i > 0 {
      SleptAtLeast(draws, i - 1);
      IntervalBounds(draws, i - 1);
      if i > 13 {
        CapReached(draws, i - 1);
      } else {
        assert i as real - 13.0 <= 0.0;
      }
    }
  }

  /** What the rest of the world does to one turn of the loop. */
  datatype Turn = Turn(
    elapsed: real,             // time since the wait began, when the loop condition is tested
    disconnected: bool,        // the client's socket is seen closed
    others: LeaseSet,          // the lease set as the other requests left it, apart from this one's member
    callTime: int,             // the client clock at the insertion
    insertFails: bool,         // the insertion has no effect and raises an error
    removeFails: bool          // the removal after an unsuccessful poll has no effect
  )

  datatype Reason = Acquired | ClientDisconnected | RedisError | Timeout

  /** The last turn polls, too, when it takes a slot or counts a failure. */
  predicate Polled(reason: Reason) { reason == Acquired || reason == RedisError }

  const DEFAULT_MAX_FAILS: nat := 5

  /** The configured number of failures, or the default when none is configured. */
  function MaxFails(configured: nat): nat { if configured == 0 then DEFAULT_MAX_FAILS else configured }

  /** The members of other requests that are alive by the client clock of a turn. */
  function OthersAlive(turn: Turn, id: Id): set<Id> {
    set x | x in turn.others && x != id && turn.others[x] > turn.callTime
  }

  /** The insertion of this turn takes effect while there is room. */
  predicate HasRoom(turn: Turn, id: Id, limit: nat) {
    !turn.insertFails && |OthersAlive(turn, id)| < limit
  }

  /** The insertions of the last `n` turns up to turn `i` have all failed. */
  predicate FailedLast(turns: nat -> Turn, i: nat, n: nat) {
    n <= i + 1 && forall j :: i + 1 - n <= j <= i ==> turns(j).insertFails
  }

  /** Why the wait ends at turn `i`, if it does: its time is up, the client is gone, a slot, or `fails` failures. */
  function EndsAt(turns: nat -> Turn, i: nat, id: Id, limit: nat, timeoutMs: real, fails: nat): Option<Reason> {
    if turns(i).elapsed >= timeoutMs then Some(Timeout)
    else if turns(i).disconnected then Some(ClientDisconnected)
    else if HasRoom(turns(i), id, limit) then Some(Acquired)
    else if FailedLast(turns, i, fails) then Some(RedisError)
    else None
  }

  class WaitingCounter {
    var count: nat

    constructor (count: nat)
      ensures this.count == count
    {
      this.count := count;
    }

    method Decr()
      modifies this
      ensures count == if old(count) == 0 then 0 else old(count) - 1
    {
      if count > 0 { count := count - 1; }
    }
  }

  /** The other members change as they like between turns; this request's own member stays as it was. */
  function Interfered(leases: LeaseSet, others: LeaseSet, id: Id): LeaseSet {
    (others - {id}) + (map x | x in leases && x == id :: leases[x])
  }

  method Interfere(store: LeaseStore, id: Id, others: LeaseSet)
    modifies store
    ensures store.leases == Interfered(old(store.leases), others, id)
    ensures id in store.leases <==> id in old(store.leases)
  {
    store.leases := (others - {id}) + (map x | x in store.leases && x == id :: store.leases[x]);
  }

  /** What the turn's insertion, and then its removal, leaves in the store. */
  lemma AfterTurn(leases: LeaseSet, turn: Turn, id: Id, until: int)
    ensures var inserted := Incr(Interfered(leases, turn.others, id), id, until, turn.callTime);
            && inserted.Keys == OthersAlive(turn, id) + {id} && |inserted| == |OthersAlive(turn, id)| + 1
            && inserted[id] == until
            && Decr(inserted, id, turn.callTime).Keys == OthersAlive(turn, id)
  {
    var others := OthersAlive(turn, id);
    var inserted := Incr(Interfered(leases, turn.others, id), id, until, turn.callTime);
    assert inserted.Keys == others + {id} && id !in others;
    RemovedKeys(inserted, turn, id);
  }

  lemma RemovedKeys(inserted: LeaseSet, turn: Turn, id: Id)
    requires forall x :: x in inserted <==> x == id || x in OthersAlive(turn, id)
    requires forall x :: x in inserted && x != id ==> inserted[x] > turn.callTime
    ensures Decr(inserted, id, turn.callTime).Keys == OthersAlive(turn, id)
  {
    assert id !in OthersAlive(turn, id);
    hide OthersAlive;
  }

  /** The store holds the request's member beside the others that are alive in this turn, and no other. */
  ghost predicate Holds(leases: LeaseSet, turn: Turn, id: Id, until: int) {
    && leases.Keys == OthersAlive(turn, id) + {id} && |leases| == |OthersAlive(turn, id)| + 1 && leases[id] == until
  }

  lemma NotAmongOthers(turn: Turn, id: Id)
    ensures id !in OthersAlive(turn, id)
  {
  }

  /** One attempt: insert, look at the count, and take the member out again if it is beyond the limit. */
  method TryForSlot(store: LeaseStore, id: Id, limit: nat, leaseMs: nat, turn: Turn) returns (count: Option<nat>)
    modifies store
    ensures count.None? <==> turn.insertFails
    ensures count.None? ==> (id in store.leases <==> id in old(store.leases))
    ensures count.Some? ==> count.value == |OthersAlive(turn, id)| + 1
    ensures count.Some? && (count.value <= limit || turn.removeFails) ==>
              Holds(store.leases, turn, id, turn.callTime + leaseMs)
    ensures count.Some? && count.value > limit && !turn.removeFails ==>
              store.leases.Keys == OthersAlive(turn, id) && id !in store.leases
  {
    hide OthersAlive, Incr, Decr, Purge, Interfered;
    NotAmongOthers(turn, id);
    AfterTurn(store.leases, turn, id, turn.callTime + leaseMs);
    Interfere(store, id, turn.others);
    if turn.insertFails { return None; }
    var inserted := store.IncrConcurrency(id, leaseMs, turn.callTime);
    if inserted > limit && !turn.removeFails {
      var remaining := store.DecrConcurrency(id, turn.callTime);
    }
    count := Some(inserted);
  }

  /** The whole part of 14 + timeoutMs / 2000. */
  function MaxPolls(timeoutMs: real): int { (14.0 + timeoutMs / 2000.0).Floor }

  /** The time slept before a poll bounds the number of polls. */
  lemma PollsBounded(draws: nat -> Draw, polls: nat, elapsed: real, timeoutMs: real)
    requires Slept(draws, polls) <= elapsed < timeoutMs
    ensures polls + 1 <= MaxPolls(timeoutMs)
  {
    SleptAtLeast(draws, polls);
    hide Slept, Interval;
    assert 2000.0 * (polls as real - 13.0) < timeoutMs;
    assert (polls + 1) as real <= 14.0 + timeoutMs / 2000.0;
  }

  /**
    Wait for a slot.  The wait ends at the first turn at which its time is up, the client is gone, an insertion
    takes effect within the limit, or the allowed number of insertions has failed in a row, and for the first
    of these reasons; it polls once in every turn before that one, and in that one for the last two reasons.
    A slot comes with a fresh member beside the others that are alive.  The waiting counter is left exactly
    once, whatever happens (unless leaving itself fails); any exit without a slot of a request that came
    without a member, if its removals worked, leaves none behind; and a wait of `timeoutMs` polls at most
    14 + timeoutMs / 2000 times.
   */
  method WaitForConcurrencySlot(
      store: LeaseStore, counter: WaitingCounter, id: Id, limit: nat, leaseMs: nat, timeoutMs: real,
      configuredMaxFails: nat, turns: nat -> Turn, draws: nat -> Draw, leaveFails: bool)
    returns (reason: Reason, polls: nat)
    requires 0.0 <= timeoutMs
    requires forall i: nat :: turns(i).elapsed >= Slept(draws, i)
    modifies store, counter
    ensures WaitEnds(turns, reason, polls, id, limit, timeoutMs, MaxFails(configuredMaxFails))
    ensures polls <= MaxPolls(timeoutMs)
    ensures reason == Acquired ==>
              && polls > 0 && |OthersAlive(turns(polls - 1), id)| < limit
              && Holds(store.leases, turns(polls - 1), id, turns(polls - 1).callTime + leaseMs)
    ensures reason != Acquired && id !in old(store.leases) && RemovalsWork(turns) ==> id !in store.leases
    ensures counter.count
         == if leaveFails || old(counter.count) == 0 then old(counter.count) else old(counter.count) - 1
  {
    hide Slept, Interval, NextInterval, OthersAlive, FailedLast, EndsAt, NoneBefore, FailedInRow, RemovalsWork,
         HasRoom, Interfered, WaitEnds, MaxPolls, Holds, Polled;
    var pollInterval := POLL_INTERVAL_MS;
    var redisFailCount := 0;
    var maxRedisFailCount := if configuredMaxFails != 0 then configuredMaxFails else DEFAULT_MAX_FAILS;
    polls, reason := 0, Timeout;
    NothingBefore(turns, id, limit, timeoutMs, maxRedisFailCount);
    IntervalNext(draws, 0);
    SomePolls(timeoutMs);
    while turns(polls).elapsed < timeoutMs
      invariant pollInterval == Interval(draws, polls)
      invariant polls <= MaxPolls(timeoutMs)
      invariant reason == Timeout && counter.count == old(counter.count)
      invariant FailedInRow(turns, polls, redisFailCount) && redisFailCount < maxRedisFailCount
      invariant NoneBefore(turns, polls, id, limit, timeoutMs, maxRedisFailCount)
      invariant id !in old(store.leases) && RemovalsWork(turns) ==> id !in store.leases
      decreases MaxPolls(timeoutMs) - polls
    {
      PollsBounded(draws, polls, turns(polls).elapsed, timeoutMs);
      OneTurn(turns, polls, id, limit, timeoutMs, redisFailCount, maxRedisFailCount);
      if turns(polls).disconnected {
        reason := ClientDisconnected;
        break;
      }
      var count := TryForSlot(store, id, limit, leaseMs, turns(polls));
      if count.None? {
        redisFailCount := redisFailCount + 1;
        if redisFailCount >= maxRedisFailCount {
          reason, polls := RedisError, polls + 1;
          break;
        }
      } else {
        redisFailCount := 0;
        if count.value <= limit {
          reason, polls := Acquired, polls + 1;
          break;
        }
      }
      IntervalNext(draws, polls);
      pollInterval := NextInterval(pollInterval, draws(polls));
      polls := polls + 1;
    }
    if reason == Timeout { TimeIsUp(turns, polls, id, limit, timeoutMs, maxRedisFailCount); }
    if !leaveFails { counter.Decr(); }
  }

  lemma SomePolls(timeoutMs: real)
    requires 0.0 <= timeoutMs
    ensures MaxPolls(timeoutMs) >= 14
  {
  }

  /** The wait ends for this reason, after as many polls, and at no turn before. */
  ghost predicate WaitEnds(turns: nat -> Turn, reason: Reason, polls: nat, id: Id, limit: nat, timeoutMs: real,
                           fails: nat)
  {
    && (Polled(reason) ==> polls > 0)
    && var last := if Polled(reason) then polls - 1 else polls;
       && EndsAt(turns, last, id, limit, timeoutMs, fails) == Some(reason)
       && NoneBefore(turns, last, id, limit, timeoutMs, fails)
  }

  lemma TimeIsUp(turns: nat -> Turn, i: nat, id: Id, limit: nat, timeoutMs: real, fails: nat)
    requires NoneBefore(turns, i, id, limit, timeoutMs, fails) && turns(i).elapsed >= timeoutMs
    ensures WaitEnds(turns, Timeout, i, id, limit, timeoutMs, fails)
  {
    hide NoneBefore;
  }

  /** What one turn within the time comes to, by the end of the wait or by its going on. */
  lemma OneTurn(turns: nat -> Turn, i: nat, id: Id, limit: nat, timeoutMs: real, failed: nat, fails: nat)
    requires NoneBefore(turns, i, id, limit, timeoutMs, fails) && turns(i).elapsed < timeoutMs
    requires FailedInRow(turns, i, failed) && failed < fails
    ensures var turn, others := turns(i), |OthersAlive(turns(i), id)|;
            var failed' := if turn.insertFails then failed + 1 else 0;
            && FailedInRow(turns, i + 1, failed')
            && (if turn.disconnected then WaitEnds(turns, ClientDisconnected, i, id, limit, timeoutMs, fails)
                else if !turn.insertFails && others < limit then
                  WaitEnds(turns, Acquired, i + 1, id, limit, timeoutMs, fails)
                else if failed' >= fails then WaitEnds(turns, RedisError, i + 1, id, limit, timeoutMs, fails)
                else NoneBefore(turns, i + 1, id, limit, timeoutMs, fails))
    ensures RemovalsWork(turns) ==> !turns(i).removeFails
    ensures id !in OthersAlive(turns(i), id)
  {
    hide FailedLast, FailedInRow, NoneBefore, EndsAt;
    RowGoesOn(turns, i, failed, fails);
    EndsUnfolds(turns, i, id, limit, timeoutMs, fails);
    if EndsAt(turns, i, id, limit, timeoutMs, fails).None? { NoneNext(turns, i, id, limit, timeoutMs, fails); }
  }

  lemma IntervalNext(draws: nat -> Draw, i: nat)
    ensures Interval(draws, 0) == POLL_INTERVAL_MS
    ensures Interval(draws, i + 1) == NextInterval(Interval(draws, i), draws(i))
  {
    hide NextInterval;
  }

  /** The wait does not end before turn `n`. */
  ghost predicate NoneBefore(turns: nat -> Turn, n: nat, id: Id, limit: nat, timeoutMs: real, fails: nat) {
    forall i: nat :: i < n ==> EndsAt(turns, i, id, limit, timeoutMs, fails).None?
  }

  lemma NothingBefore(turns: nat -> Turn, id: Id, limit: nat, timeoutMs: real, fails: nat)
    ensures NoneBefore(turns, 0, id, limit, timeoutMs, fails) && FailedInRow(turns, 0, 0)
  {
  }

  lemma NoneNext(turns: nat -> Turn, n: nat, id: Id, limit: nat, timeoutMs: real, fails: nat)
    requires NoneBefore(turns, n, id, limit, timeoutMs, fails) && EndsAt(turns, n, id, limit, timeoutMs, fails).None?
    ensures NoneBefore(turns, n + 1, id, limit, timeoutMs, fails)
  {
    hide EndsAt;
  }

  ghost predicate RemovalsWork(turns: nat -> Turn) {
    forall i: nat :: !turns(i).removeFails
  }

  lemma EndsUnfolds(turns: nat -> Turn, i: nat, id: Id, limit: nat, timeoutMs: real, fails: nat)
    ensures EndsAt(turns, i, id, limit, timeoutMs, fails)
         == if turns(i).elapsed >= timeoutMs then Some(Timeout)
            else if turns(i).disconnected then Some(ClientDisconnected)
            else if !turns(i).insertFails && |OthersAlive(turns(i), id)| < limit then Some(Acquired)
            else if FailedLast(turns, i, fails) then Some(RedisError)
            else None
  {
    hide FailedLast, OthersAlive;
  }

  /** Exactly the last `failed` turns before turn `n` have failed. */
  ghost predicate FailedInRow(turns: nat -> Turn, n: nat, failed: nat) {
    && failed <= n && (forall j :: n - failed <= j < n ==> turns(j).insertFails)
    && (failed == n || !turns(n - failed - 1).insertFails)
  }

  /** One more turn: the row grows or starts anew, and its length tells whether enough have failed. */
  lemma RowGoesOn(turns: nat -> Turn, i: nat, failed: nat, allowed: nat)
    requires FailedInRow(turns, i, failed) && allowed > 0
    ensures var failed' := if turns(i).insertFails then failed + 1 else 0;
            FailedInRow(turns, i + 1, failed') && (FailedLast(turns, i, allowed) <==> failed' >= allowed)
  {
  }
}
