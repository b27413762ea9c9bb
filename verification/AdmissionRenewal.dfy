/**
  Renewal on the admission machine: as long as renewals come in time, a running request's lease is in the
  store and alive, so the requests that run, and not only those whose lease happens to live, stay within
  the limit.
 */
module AdmissionRenewal {
  import opened Leases
  import opened Admission
  import opened AdmissionPairing
  import opened Options
  import Renewal

  /** The step is a renewal of `r` that reaches the store. */
  predicate Renews(s: State, step: Step, r: Id) {
    step.Renew? && step.r == r && Enabled(s, step) && !step.outcome.Failed?
  }

  predicate InsertsFor(s: State, step: Step, r: Id) {
    Inserts(s, step) && step.r == r
  }

  /** When the last insertion or renewal for `r` that reached the store was called. */
  function LastCall(cfg: Config, steps: seq<Step>, r: Id): Option<int> {
    if steps == [] then None
    else
      var before, last := steps[..|steps| - 1], steps[|steps| - 1];
      var s := Run(cfg, before);
      if InsertsFor(s, last, r) || Renews(s, last, r) then Some(last.at) else LastCall(cfg, before, r)
  }

  /** Admitted and not released: the request is being served. */
  predicate Running(q: Request) { q.phase.Admitted? && !q.released }

  function RunningIds(s: State): set<Id> {
    set r | r in s.reqs && Running(s.reqs[r])
  }

  /** At this moment every running request has been renewed less than `marginMs` ago. */
  ghost predicate Recent(cfg: Config, steps: seq<Step>, marginMs: real) {
    var s := Run(cfg, steps);
    forall r :: r in s.reqs && Running(s.reqs[r]) && LastCall(cfg, steps, r).Some? ==>
      (s.now - LastCall(cfg, steps, r).value) as real < marginMs
  }

  /** At every moment of the run. */
  ghost predicate Punctual(cfg: Config, steps: seq<Step>, marginMs: real) {
    Recent(cfg, steps, marginMs) && (steps == [] || Punctual(cfg, steps[..|steps| - 1], marginMs))
  }

  /** The expiry on record is that of the last call. */
  ghost predicate Written(cfg: Config, steps: seq<Step>) {
    var s := Run(cfg, steps);
    forall r :: r in s.reqs && Granted(s.reqs[r]) && !s.reqs[r].released ==>
      LastCall(cfg, steps, r).Some? && s.reqs[r].until == LastCall(cfg, steps, r).value + cfg.leaseMs
  }

  /** Only an insertion or a renewal writes an expiry. */
  lemma UntilKept(cfg: Config, s: State, step: Step, r: Id)
    requires !InsertsFor(s, step, r) && !Renews(s, step, r) && r in s.reqs
    ensures r in Next(cfg, s, step).reqs && Next(cfg, s, step).reqs[r].until == s.reqs[r].until
  {
    hide Next;
    if r !in Actor(step) {
      OthersUntouched(cfg, s, step, r);
    } else if Entering(step) {
      UntilEntering(cfg, s, step, r);
    } else {
      UntilHolding(cfg, s, step, r);
    }
  }

  lemma UntilEntering(cfg: Config, s: State, step: Step, r: Id)
    requires Entering(step) && r in Actor(step) && !Inserts(s, step) && r in s.reqs
    ensures r in Next(cfg, s, step).reqs && Next(cfg, s, step).reqs[r].until == s.reqs[r].until
  {
    hide Next, Enabled;
    if Enabled(s, step) { EnteringShape(cfg, s, step, r); } else { DisabledStays(cfg, s, step); }
  }

  lemma UntilHolding(cfg: Config, s: State, step: Step, r: Id)
    requires !Entering(step) && r in Actor(step) && !Inserts(s, step) && !Renews(s, step, r) && r in s.reqs
    ensures r in Next(cfg, s, step).reqs && Next(cfg, s, step).reqs[r].until == s.reqs[r].until
  {
    hide Purge, Incr, Refresh, Decr, TryRemove;
  }

  lemma InsertionWrites(cfg: Config, s: State, step: Step)
    requires Inserts(s, step)
    ensures step.r in Next(cfg, s, step).reqs && Next(cfg, s, step).reqs[step.r].until == step.at + cfg.leaseMs
  {
    InsertionShape(cfg, s, step);
    hide Next, Incr;
  }

  /** A renewal that finds its member alive writes the new expiry. */
  lemma RenewalWrites(cfg: Config, s: State, step: Step, r: Id)
    requires Renews(s, step, r) && r in s.leases && s.leases[r] > s.now
    ensures r in Next(cfg, s, step).reqs && Next(cfg, s, step).reqs[r].until == step.at + cfg.leaseMs
  {
    hide Refresh;
  }

  /** A running request that was renewed in time owns its lease. */
  lemma RunningOwns(cfg: Config, steps: seq<Step>, marginMs: real, r: Id)
    requires Written(cfg, steps) && Recent(cfg, steps, marginMs) && marginMs <= cfg.leaseMs as real
    requires r in Run(cfg, steps).reqs && Running(Run(cfg, steps).reqs[r])
    ensures OwnsLease(Run(cfg, steps), Run(cfg, steps).reqs[r])
  {
    hide Run, LastCall;
    var s := Run(cfg, steps);
    assert Granted(s.reqs[r]);
    LessByMargin(s.now - LastCall(cfg, steps, r).value, cfg.leaseMs, marginMs);
  }

  lemma LessByMargin(passed: int, leaseMs: nat, marginMs: real)
    requires passed as real < marginMs && marginMs <= leaseMs as real
    ensures passed < leaseMs
  {
  }

  lemma LastCallNext(cfg: Config, steps: seq<Step>, step: Step, r: Id)
    ensures LastCall(cfg, steps + [step], r)
         == if InsertsFor(Run(cfg, steps), step, r) || Renews(Run(cfg, steps), step, r) then Some(step.at)
            else LastCall(cfg, steps, r)
  {
    hide Run;
    assert (steps + [step])[..|steps|] == steps;
  }

  lemma WrittenNext(cfg: Config, steps: seq<Step>, step: Step, marginMs: real)
    requires Written(cfg, steps) && Recent(cfg, steps, marginMs) && marginMs <= cfg.leaseMs as real
             && Kept(Run(cfg, steps))
    ensures Written(cfg, steps + [step])
  {
    hide Run, LastCall, Next, Granted;
    var s, s' := Run(cfg, steps), Run(cfg, steps + [step]);
    RunAppend(cfg, steps, step);
    forall r | r in s'.reqs && Granted(s'.reqs[r]) && !s'.reqs[r].released
      ensures LastCall(cfg, steps + [step], r).Some?
           && s'.reqs[r].until == LastCall(cfg, steps + [step], r).value + cfg.leaseMs
    {
      WrittenFor(cfg, steps, step, marginMs, r);
    }
  }

  lemma WrittenFor(cfg: Config, steps: seq<Step>, step: Step, marginMs: real, r: Id)
    requires Written(cfg, steps) && Recent(cfg, steps, marginMs) && marginMs <= cfg.leaseMs as real
             && Kept(Run(cfg, steps))
    requires var s' := Next(cfg, Run(cfg, steps), step); r in s'.reqs && Granted(s'.reqs[r]) && !s'.reqs[r].released
    ensures var s' := Next(cfg, Run(cfg, steps), step);
            && LastCall(cfg, steps + [step], r).Some?
            && s'.reqs[r].until == LastCall(cfg, steps + [step], r).value + cfg.leaseMs
  {
    hide Run, LastCall, Next, Granted, Inserts;
    var s := Run(cfg, steps);
    LastCallNext(cfg, steps, step, r);
    if InsertsFor(s, step, r) {
      InsertionWrites(cfg, s, step);
    } else {
      HeldBefore(cfg, s, step, r);
      if Renews(s, step, r) {
        RenewerRuns(s, step, r);
        RunningOwns(cfg, steps, marginMs, r);
        RenewalWrites(cfg, s, step, r);
      } else {
        UntilKept(cfg, s, step, r);
      }
    }
  }

  lemma RenewerRuns(s: State, step: Step, r: Id)
    requires Renews(s, step, r) && r in s.reqs && !s.reqs[r].released
    ensures Running(s.reqs[r])
  {
  }

  lemma {:induction false} PunctualWrites(cfg: Config, steps: seq<Step>, marginMs: real)
    requires ConfigOk(cfg) && DeletesInTime(cfg, steps) && Punctual(cfg, steps, marginMs)
             && marginMs <= cfg.leaseMs as real
    ensures Written(cfg, steps)
  {
    if steps == [] {
      assert Run(cfg, steps).reqs == map[];
    } else {
      var before, last := steps[..|steps| - 1], steps[|steps| - 1];
      assert steps == before + [last];
      PunctualWrites(cfg, before, marginMs);
      OwnersWithinLimit(cfg, before);
      hide Run, Written, Kept, Owners, Orderly;
      WrittenNext(cfg, before, last, marginMs);
    }
  }

  /**
    On-time renewals keep the lease.  In every run whose deletes come in time, in which no running request
    was ever left longer than the margin without an insertion or renewal of its own that reached the store:
    each running request has a live member in the store, with the expiry of its last call, and so the
    running requests never exceed the limit.
   */
  lemma RunningWithinLimit(cfg: Config, steps: seq<Step>, marginMs: real)
    requires ConfigOk(cfg) && DeletesInTime(cfg, steps) && Punctual(cfg, steps, marginMs)
             && marginMs <= cfg.leaseMs as real
    ensures var s := Run(cfg, steps);
            && (forall r <- RunningIds(s) ::
                  r in s.leases && s.leases[r] > s.now && s.leases[r] == LastCall(cfg, steps, r).GetOr(0) + cfg.leaseMs)
            && |RunningIds(s)| <= cfg.limit
  {
    var s := Run(cfg, steps);
    PunctualWrites(cfg, steps, marginMs);
    OwnersWithinLimit(cfg, steps);
    hide Run, LastCall, DeletesInTime, Orderly;
    forall r | r in RunningIds(s)
      ensures r in s.leases && s.leases[r] > s.now && s.leases[r] == LastCall(cfg, steps, r).GetOr(0) + cfg.leaseMs
              && r in Owners(s)
    {
      RunningOwns(cfg, steps, marginMs, r);
    }
    SubsetSize(RunningIds(s), Owners(s));
  }

  /**
    For every configuration: with the renewal period the program derives from it, renewals that reach the
    store within five seconds of their tick are on time.
   */
  lemma LeaseNeverLapses(lease: Option<real>, renew: Option<real>, cfg: Config, steps: seq<Step>)
    requires ConfigOk(cfg) && DeletesInTime(cfg, steps)
    requires var c := Renewal.GetConcurrencyConfig(lease, renew);
             && Renewal.RenewIntervalSeconds(c) > 0.0 && cfg.leaseMs as real == Renewal.LeaseSeconds(c) * 1000.0
             && Punctual(cfg, steps, Renewal.RenewIntervalMs(c) + 5000.0)
    ensures var s := Run(cfg, steps);
            && (forall r <- RunningIds(s) :: r in s.leases && s.leases[r] > s.now)
            && |RunningIds(s)| <= cfg.limit
  {
    Renewal.RenewalWithinLease(lease, renew);
    hide Renewal.LeaseSeconds, Renewal.RenewIntervalMs, Renewal.RenewIntervalSeconds, Renewal.GetConcurrencyConfig;
    RunningWithinLimit(cfg, steps, Renewal.RenewIntervalMs(Renewal.GetConcurrencyConfig(lease, renew)) + 5000.0);
  }
}
