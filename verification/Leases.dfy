/**
  The lease set behind one API key's concurrency count: a sorted set of request ids scored by expiry
  time, and the four scripts that act on it atomically.
 */
module Leases {

  type Id = nat

  /** Member to expiry time, in milliseconds. */
  type LeaseSet = map<Id, int>

  /** Drop every member whose expiry is not after `now`. */
  function Purge(leases: LeaseSet, now: int): LeaseSet {
    map id | id in leases && leases[id] > now :: leases[id]
  }

  function Incr(leases: LeaseSet, id: Id, expireAt: int, now: int): LeaseSet {
    Purge(leases, now)[id := expireAt]
  }

  function Refresh(leases: LeaseSet, id: Id, expireAt: int, now: int): LeaseSet {
    var live := Purge(leases, now);
    if id in live then live[id := expireAt] else live
  }

  function Decr(leases: LeaseSet, id: Id, now: int): LeaseSet {
    Purge(leases - {id}, now)
  }

  lemma {:induction false} SubsetSize<T>(a: set<T>, b: set<T>)
    requires a <= b
    ensures |a| <= |b|
  {
    if a != {} {
      var x :| x in a;
      SubsetSize(a - {x}, b - {x});
    }
  }

  /** The store object: each method is one script call made at client time `now`. */
  class LeaseStore {
    var leases: LeaseSet

    constructor ()
      ensures leases == map[]
    {
      leases := map[];
    }

    method IncrConcurrency(id: Id, leaseMs: nat, now: int) returns (count: nat)
      modifies this
      ensures leases == Incr(old(leases), id, now + leaseMs, now) && count == |leases|
      ensures forall x :: x in leases <==> x == id || (x in old(leases) && old(leases)[x] > now)
      ensures forall x :: x in leases ==> leases[x] == if x == id then now + leaseMs else old(leases)[x]
    {
      leases := Purge(leases, now);
      leases := leases[id := now + leaseMs];
      count := |leases|;
    }

    method RefreshConcurrencyLease(id: Id, leaseMs: nat, now: int) returns (refreshed: bool)
      modifies this
      ensures leases == Refresh(old(leases), id, now + leaseMs, now)
      ensures refreshed <==> id in old(leases) && old(leases)[id] > now
      ensures forall x :: x in leases <==> x in old(leases) && old(leases)[x] > now
      ensures forall x :: x in leases ==> leases[x] == if x == id then now + leaseMs else old(leases)[x]
    {
      leases := Purge(leases, now);
      if id in leases {
        leases := leases[id := now + leaseMs];
        return true;
      }
      refreshed := false;
    }

    method DecrConcurrency(id: Id, now: int) returns (count: nat)
      modifies this
      ensures leases == Decr(old(leases), id, now) && count == |leases|
      ensures forall x :: x in leases <==> x != id && x in old(leases) && old(leases)[x] > now
      ensures forall x :: x in leases ==> leases[x] == old(leases)[x]
    {
      leases := leases - {id};
      leases := Purge(leases, now);
      count := |leases|;
    }

    method GetConcurrency(now: int) returns (count: nat)
      modifies this
      ensures leases == Purge(old(leases), now) && count == |leases|
      ensures forall x :: x in leases <==> x in old(leases) && old(leases)[x] > now
      ensures forall x :: x in leases ==> leases[x] == old(leases)[x]
    {
      leases := Purge(leases, now);
      count := |leases|;
    }
  }
}
