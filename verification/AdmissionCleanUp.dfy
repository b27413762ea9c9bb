/**
  The clean-up of expired leases counts and deletes in separate calls: exactly which deletes keep the limit,
  over everything that may happen after them.
 */
module AdmissionCleanUp {
  import opened Leases
  import opened Admission
  import opened AdmissionPairing

  function RunFrom(cfg: Config, s: State, more: seq<Step>): State {
    if more == [] then s else Next(cfg, RunFrom(cfg, s, more[..|more| - 1]), more[|more| - 1])
  }

  lemma {:induction false} RunConcat(cfg: Config, a: seq<Step>, b: seq<Step>)
    ensures Run(cfg, a + b) == RunFrom(cfg, Run(cfg, a), b)
  {
    hide Next;
    if b == [] {
      assert a + b == a;
    } else {
      assert (a + b)[..|a + b| - 1] == a + b[..|b| - 1];
      RunConcat(cfg, a, b[..|b| - 1]);
    }
  }

  lemma {:induction false} FromConcat(cfg: Config, s: State, a: seq<Step>, b: seq<Step>)
    ensures RunFrom(cfg, s, a + b) == RunFrom(cfg, RunFrom(cfg, s, a), b)
  {
    hide Next;
    if b == [] {
      assert a + b == a;
    } else {
      assert (a + b)[..|a + b| - 1] == a + b[..|b| - 1];
      FromConcat(cfg, s, a, b[..|b| - 1]);
    }
  }

  predicate NoDelete(steps: seq<Step>) {
    forall step <- steps :: !step.AdminDelete?
  }

  lemma {:induction false} NowNatural(cfg: Config, steps: seq<Step>)
    ensures Run(cfg, steps).now >= 0
  {
    if steps != [] {
      NowNatural(cfg, steps[..|steps| - 1]);
      NowGrows(cfg, Run(cfg, steps[..|steps| - 1]), steps[|steps| - 1]);
    }
  }

  lemma NowGrows(cfg: Config, s: State, step: Step)
    ensures Next(cfg, s, step).now >= s.now
  {
    hide Purge, Incr, Refresh, Decr;
  }

  lemma {:induction false} FreshId(used: set<Id>) returns (r: Id)
    ensures forall x <- used :: x < r
  {
    if used == {} {
      r := 0;
    } else {
      var x :| x in used;
      var above := FreshId(used - {x});
      r := if above > x then above else x + 1;
      forall y | y in used ensures y < r {
        if y != x { assert y in used - {x}; }
      }
    }
  }

  // ---- Filling the limit ----

  /** Nothing in the store has expired. */
  ghost predicate AllLive(s: State) {
    s.now >= 0 && forall id :: id in s.leases ==> s.leases[id] > s.now
  }

  /** A WebSocket turn that starts while there is room is admitted. */
  function AdmitSteps(s: State, r: Id): seq<Step> {
    [Start(r, true), FirstIncr(r, s.now, Answered)]
  }

  lemma StartStep(cfg: Config, s: State, r: Id)
    requires s.now >= 0 && r !in s.reqs
    ensures Next(cfg, s, Start(r, true))
            == s.(reqs := s.reqs[r := Request(true, Starting, 0, false, 0, false, false, false)])
  {
    hide Purge, Incr, Refresh, Decr;
  }

  lemma FirstStep(cfg: Config, s: State, r: Id)
    requires r in s.reqs && s.reqs[r].phase.Starting?
    ensures Next(cfg, s, FirstIncr(r, s.now, Answered)) == FirstIncrStep(cfg, s, r, s.now, Answered)
  {
    hide FirstIncrStep;
  }

  lemma InsertLive(cfg: Config, s: State, r: Id)
    requires AllLive(s) && r !in s.leases && r in s.reqs
    ensures Insert(cfg, s, r, s.now).leases == s.leases[r := s.now + cfg.leaseMs]
    ensures |Insert(cfg, s, r, s.now).leases| == |s.leases| + 1
  {
    assert Purge(s.leases, s.now) == s.leases;
    OneMoreLease(s.leases, r, s.now + cfg.leaseMs);
  }

  lemma AdmitOne(cfg: Config, s: State, r: Id)
    requires cfg.leaseMs > 0 && AllLive(s) && |s.leases| < cfg.limit && r !in s.leases && r !in s.reqs
    ensures var s' := Next(cfg, Next(cfg, s, Start(r, true)), FirstIncr(r, s.now, Answered));
            && s'.now == s.now && s'.leases == s.leases[r := s.now + cfg.leaseMs]
            && s'.reqs == s.reqs[r := Request(true, Admitted, s.now + cfg.leaseMs, false, 0, false, false, false)]
  {
    hide Next, Incr;
    StartStep(cfg, s, r);
    var s1 := Next(cfg, s, Start(r, true));
    FirstStep(cfg, s1, r);
    InsertLive(cfg, s1, r);
  }

  lemma FromNext(cfg: Config, s: State, before: seq<Step>, step: Step)
    ensures RunFrom(cfg, s, before + [step]) == Next(cfg, RunFrom(cfg, s, before), step)
  {
    hide Next;
    assert (before + [step])[..|before|] == before;
  }

  lemma AdmitSeq(cfg: Config, s: State, r: Id)
    ensures RunFrom(cfg, s, AdmitSteps(s, r)) == Next(cfg, Next(cfg, s, Start(r, true)), FirstIncr(r, s.now, Answered))
  {
    hide Next;
    FromNext(cfg, s, [], Start(r, true));
    FromNext(cfg, s, [] + [Start(r, true)], FirstIncr(r, s.now, Answered));
    assert AdmitSteps(s, r) == [] + [Start(r, true)] + [FirstIncr(r, s.now, Answered)];
  }

  lemma OwnersGrow(s: State, s': State, r: Id)
    requires r !in s.reqs && s'.now == s.now && r in s'.reqs && s'.reqs == s.reqs[r := s'.reqs[r]]
             && OwnsLease(s', s'.reqs[r])
    ensures |Owners(s')| == |Owners(s)| + 1
  {
    assert r !in Owners(s);
    assert Owners(s') == Owners(s) + {r};
  }

  lemma OneMoreLease(a: LeaseSet, r: Id, until: int)
    requires r !in a
    ensures |a[r := until]| == |a| + 1
  {
    assert a[r := until].Keys == a.Keys + {r};
  }

  lemma AdmitFresh(cfg: Config, s: State) returns (steps: seq<Step>)
    requires cfg.leaseMs > 0 && AllLive(s) && |s.leases| < cfg.limit
    ensures NoDelete(steps) && AllLive(RunFrom(cfg, s, steps))
    ensures |RunFrom(cfg, s, steps).leases| == |s.leases| + 1 && |Owners(RunFrom(cfg, s, steps))| == |Owners(s)| + 1
  {
    hide Next, Owners, RunFrom;
    var r := FreshId(s.leases.Keys + s.reqs.Keys);
    assert r !in s.leases.Keys + s.reqs.Keys;
    steps := AdmitSteps(s, r);
    AdmitOne(cfg, s, r);
    AdmitSeq(cfg, s, r);
    OneMoreLease(s.leases, r, s.now + cfg.leaseMs);
    OwnersGrow(s, RunFrom(cfg, s, steps), r);
  }

  /** As long as there is room, fresh turns are admitted, and whoever owned a lease by its record still does. */
  lemma {:induction false} AdmitMany(cfg: Config, s: State, k: nat) returns (more: seq<Step>)
    requires cfg.leaseMs > 0 && AllLive(s) && |s.leases| + k <= cfg.limit
    ensures NoDelete(more) && |Owners(RunFrom(cfg, s, more))| == |Owners(s)| + k
    decreases k
  {
    hide Next, Owners, AllLive;
    if k == 0 {
      more := [];
    } else {
      var first := AdmitFresh(cfg, s);
      var rest := AdmitMany(cfg, RunFrom(cfg, s, first), k - 1);
      FromConcat(cfg, s, first, rest);
      more := first + rest;
    }
  }

  // ---- The exact condition ----

  /** Whatever happens after the delete, short of another one, the owners stay within the limit. */
  ghost predicate KeepsLimit(cfg: Config, steps: seq<Step>) {
    forall more :: NoDelete(more) ==> |Owners(Run(cfg, steps + [AdminDelete] + more))| <= cfg.limit
  }

  lemma DeleteEmpties(cfg: Config, s: State)
    requires s.deletes > 0 && s.now >= 0
    ensures Next(cfg, s, AdminDelete) == s.(leases := map[], deletes := s.deletes - 1)
    ensures Owners(Next(cfg, s, AdminDelete)) == Owners(s)
  {
  }

  /** Every delete that comes while somebody owns a lease can be followed by a breach, at every limit. */
  lemma LateDeleteBreaksLimit(cfg: Config, steps: seq<Step>)
    requires cfg.leaseMs > 0 && Run(cfg, steps).deletes > 0 && Owners(Run(cfg, steps)) != {}
    ensures exists more :: NoDelete(more) && |Owners(Run(cfg, steps + [AdminDelete] + more))| > cfg.limit
  {
    var s := Run(cfg, steps);
    NowNatural(cfg, steps);
    DeleteEmpties(cfg, s);
    RunAppend(cfg, steps, AdminDelete);
    var s1 := Next(cfg, s, AdminDelete);
    hide Run, Next, Owners, RunFrom;
    assert |s1.leases| == 0;
    var more := AdmitMany(cfg, s1, cfg.limit);
    RunConcat(cfg, steps + [AdminDelete], more);
    assert |Owners(s)| > 0;
  }

  lemma {:induction false} StillInTime(cfg: Config, steps: seq<Step>, more: seq<Step>)
    requires DeletesInTime(cfg, steps) && NoDelete(more)
    ensures DeletesInTime(cfg, steps + more)
  {
    hide Next, Owners, Run;
    if more == [] {
      assert steps + more == steps;
    } else {
      var init, last := more[..|more| - 1], more[|more| - 1];
      assert last in more;
      StillInTime(cfg, steps, init);
      assert (steps + more)[..|steps + more| - 1] == steps + init;
    }
  }

  /**
    The exact condition.  For every run whose deletes have come in time so far, and every limit: the next
    delete keeps the owners within the limit in everything that may follow if and only if nobody owns a
    lease when it comes.
   */
  lemma DeleteKeepsLimitIff(cfg: Config, steps: seq<Step>)
    requires ConfigOk(cfg) && cfg.leaseMs > 0 && DeletesInTime(cfg, steps) && Run(cfg, steps).deletes > 0
    ensures KeepsLimit(cfg, steps) <==> Owners(Run(cfg, steps)) == {}
  {
    hide Run, Next, Owners, DeletesInTime;
    if Owners(Run(cfg, steps)) == {} {
      RunAppend(cfg, steps, AdminDelete);
      forall more | NoDelete(more) ensures |Owners(Run(cfg, steps + [AdminDelete] + more))| <= cfg.limit {
        StillInTime(cfg, steps + [AdminDelete], more);
        OwnersWithinLimit(cfg, steps + [AdminDelete] + more);
      }
    } else {
      LateDeleteBreaksLimit(cfg, steps);
    }
  }
}
