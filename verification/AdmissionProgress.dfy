/**
  What admission gives: which members each call leaves in the store, that a slot is granted whenever there
  is room, and exactly when a waiting request is turned away or gives up.
 */
module AdmissionProgress {
  import opened Leases
  import opened Admission
  import opened AdmissionPairing
  import opened AdmissionCleanUp

  // ---- The store ----

  /** The step takes its own request's member out of the store. */
  predicate Removes(step: Step) {
    (step.BackOut? || step.PollBackOut? || step.Drop? || step.Release?) && !step.outcome.Failed?
  }

  predicate RenewsOne(step: Step) { step.Renew? && !step.outcome.Failed? }

  /** The step looks at the clock and forgets the members that have expired by then. */
  predicate Looks(s: State, step: Step) {
    Inserts(s, step) || Removes(step) || RenewsOne(step) || step.Sweep? || step.AdminPurge?
  }

  /** The members that a step with a clock reading leaves alone. */
  ghost predicate StaysFor(s: State, step: Step, x: Id) {
    x in s.leases && s.leases[x] > CallTime(step)
  }

  /** Member by member, what a step does to the store. */
  ghost predicate StoreMoves(cfg: Config, s: State, s': State, step: Step) {
    if Inserts(s, step) then
      && (forall x :: x in s'.leases <==> x == step.r || StaysFor(s, step, x))
      && (forall x :: x in s'.leases ==> s'.leases[x] == if x == step.r then step.at + cfg.leaseMs else s.leases[x])
    else if Removes(step) then
      && (forall x :: x in s'.leases <==> x != step.r && StaysFor(s, step, x))
      && (forall x :: x in s'.leases ==> s'.leases[x] == s.leases[x])
    else if RenewsOne(step) then
      && (forall x :: x in s'.leases <==> StaysFor(s, step, x))
      && (forall x :: x in s'.leases ==> s'.leases[x] == if x == step.r then step.at + cfg.leaseMs else s.leases[x])
    else if step.Sweep? || step.AdminPurge? then
      && (forall x :: x in s'.leases <==> StaysFor(s, step, x))
      && (forall x :: x in s'.leases ==> s'.leases[x] == s.leases[x])
    else if step.KeyExpires? || step.AdminDelete? then s'.leases == map[]
    else s'.leases == s.leases
  }

  lemma InsertMoves(cfg: Config, s: State, step: Step)
    requires Inserts(s, step)
    ensures StoreMoves(cfg, s, Next(cfg, s, step), step)
  {
    hide Next;
    InsertionShape(cfg, s, step);
  }

  lemma RemovalMoves(cfg: Config, s: State, step: Step)
    requires Enabled(s, step) && Removes(step)
    ensures StoreMoves(cfg, s, Next(cfg, s, step), step)
  {
    hide FirstIncrStep, PollStep, RenewStep, Incr, Refresh;
  }

  lemma RenewalMoves(cfg: Config, s: State, step: Step)
    requires Enabled(s, step) && RenewsOne(step)
    ensures StoreMoves(cfg, s, Next(cfg, s, step), step)
  {
    hide FirstIncrStep, PollStep, Incr, Decr;
  }

  lemma SweepMoves(cfg: Config, s: State, step: Step)
    requires Enabled(s, step) && Actor(step) == {}
    ensures StoreMoves(cfg, s, Next(cfg, s, step), step)
  {
    hide FirstIncrStep, PollStep, RenewStep, Incr, Decr, Refresh;
  }

  lemma QuietEntering(cfg: Config, s: State, step: Step)
    requires Enabled(s, step) && Entering(step) && !Inserts(s, step) && !Removes(step)
    ensures Next(cfg, s, step).leases == s.leases
  {
    hide Purge, Incr, Decr, Refresh, Insert;
  }

  lemma QuietLater(cfg: Config, s: State, step: Step)
    requires Enabled(s, step) && Actor(step) != {} && !Entering(step)
    requires !Inserts(s, step) && !Removes(step) && !RenewsOne(step)
    ensures Next(cfg, s, step).leases == s.leases
  {
    hide Purge, Incr, Decr, Refresh, Insert, RenewStep;
  }

  /**
    Each call on the store drops exactly the members that have expired by its clock reading, besides what it
    is for: an insertion adds its own, a removal takes its own out, a renewal extends its own if that is
    alive. No other step touches the store, but for the expiry of the key and the administrator's delete.
   */
  lemma StoreSteps(cfg: Config, s: State, step: Step)
    requires Enabled(s, step)
    ensures StoreMoves(cfg, s, Next(cfg, s, step), step)
  {
    hide Next, Enabled, StaysFor;
    if Inserts(s, step) {
      InsertMoves(cfg, s, step);
    } else if Removes(step) {
      RemovalMoves(cfg, s, step);
    } else if RenewsOne(step) {
      RenewalMoves(cfg, s, step);
    } else if Actor(step) == {} {
      SweepMoves(cfg, s, step);
    } else if Entering(step) {
      QuietEntering(cfg, s, step);
    } else {
      QuietLater(cfg, s, step);
    }
  }

  // ---- Granting ----

  /** The unexpired members of other requests, as a call sees them. */
  function OthersAlive(s: State, r: Id, at: int): set<Id> {
    set x | x in s.leases && x != r && s.leases[x] > at
  }

  lemma KeysOf(a: LeaseSet, others: set<Id>, r: Id)
    requires r !in others && forall x :: x in a <==> x == r || x in others
    ensures |a| == |others| + 1
  {
    assert a.Keys == others + {r};
  }

  lemma OneMoreMember(s: State, s': State, r: Id, at: int)
    requires forall x :: x in s'.leases <==> x == r || (x in s.leases && s.leases[x] > at)
    ensures |s'.leases| == |OthersAlive(s, r, at)| + 1
  {
    var others := OthersAlive(s, r, at);
    assert r !in others;
    KeysOf(s'.leases, others, r);
  }

  lemma InsertedSize(cfg: Config, s: State, step: Step)
    requires Inserts(s, step)
    ensures step.r in s.reqs
    ensures |Insert(cfg, s, step.r, step.at).leases| == |OthersAlive(s, step.r, step.at)| + 1
  {
    assert step.r in s.reqs;
    var s1 := Insert(cfg, s, step.r, step.at);
    OneMoreMember(s, s1, step.r, step.at);
    hide OthersAlive;
  }

  /**
    A slot is granted exactly when there is room: an answered first insertion admits the request if and only
    if fewer than `limit` other members are alive by its clock, and an answered poll likewise gives it a slot;
    otherwise the request has to back out.
   */
  lemma GrantedWithRoom(cfg: Config, s: State, step: Step)
    requires Inserts(s, step) && step.outcome.Answered?
    ensures step.r in Next(cfg, s, step).reqs
    ensures var p := Next(cfg, s, step).reqs[step.r].phase;
            if |OthersAlive(s, step.r, step.at)| < cfg.limit
            then p == (if step.FirstIncr? then Admitted else Leaving(false, true))
            else p == if step.FirstIncr? then Over else PollOver(0)
  {
    hide OthersAlive, Incr, Purge, Refresh, Decr;
    InsertedSize(cfg, s, step);
  }

  // ---- The way in ----

  lemma PollGrants(cfg: Config, s: State, r: Id, at: int)
    requires r in s.reqs && s.reqs[r].phase.Polling? && at <= s.now && |OthersAlive(s, r, at)| < cfg.limit
    ensures var s1 := Next(cfg, s, Poll(r, at, Answered));
            && r in s1.reqs && s1.reqs[r].phase == Leaving(false, true)
            && r in s1.leases && s1.leases[r] == at + cfg.leaseMs && s1.now == s.now
  {
    hide Next, Incr, Purge, OthersAlive;
    var step := Poll(r, at, Answered);
    assert Inserts(s, step);
    GrantedWithRoom(cfg, s, step);
    InsertionShape(cfg, s, step);
    InsertMoves(cfg, s, step);
  }

  lemma LeaveAndAdmit(cfg: Config, s: State, r: Id, left: bool)
    requires r in s.reqs && s.reqs[r].phase == Leaving(false, true) && s.now >= 0
    ensures var s' := Next(cfg, Next(cfg, s, LeaveQueue(r, left)), Admit(r));
            r in s'.reqs && s'.reqs[r].phase == Admitted && s'.leases == s.leases
  {
    hide Purge, Incr, Refresh, Decr;
  }

  /**
    A waiting request gets in: from every moment of every run, if fewer than `limit` other members are alive
    by its clock when it polls, then the poll, leaving the counter (whether or not that succeeds) and the
    check that the client is still there make it a running request with a fresh lease.
   */
  lemma WaiterGetsIn(cfg: Config, steps: seq<Step>, r: Id, at: int, left: bool)
    requires var s := Run(cfg, steps);
             r in s.reqs && s.reqs[r].phase.Polling? && at <= s.now && |OthersAlive(s, r, at)| < cfg.limit
    ensures var s' := Run(cfg, steps + [Poll(r, at, Answered)] + [LeaveQueue(r, left)] + [Admit(r)]);
            && r in s'.reqs && s'.reqs[r].phase == Admitted
            && r in s'.leases && s'.leases[r] == at + cfg.leaseMs
  {
    hide Next, Run, OthersAlive, DeletesInTime, DeleteInTime;
    var s := Run(cfg, steps);
    NowNatural(cfg, steps);
    PollGrants(cfg, s, r, at);
    LeaveAndAdmit(cfg, Next(cfg, s, Poll(r, at, Answered)), r, left);
    RunAppend(cfg, steps, Poll(r, at, Answered));
    RunAppend(cfg, steps + [Poll(r, at, Answered)], LeaveQueue(r, left));
    RunAppend(cfg, steps + [Poll(r, at, Answered)] + [LeaveQueue(r, left)], Admit(r));
  }

  // ---- Turned away, or giving up ----

  /** A request that joins is let in exactly when it fits; otherwise it has to leave again. */
  lemma LetInIff(cfg: Config, s: State, r: Id)
    requires r in s.reqs && s.reqs[r].phase.Choosing? && s.now >= 0
    ensures var s' := Next(cfg, s, JoinQueue(r, true));
            && r in s'.reqs && s'.queue == s.queue + 1
            && (s'.reqs[r].phase.Joined? <==> s.queue < cfg.maxQueue)
            && (s'.reqs[r].phase.QueueFull? <==> s.queue >= cfg.maxQueue)
  {
    hide Purge, Incr, Refresh, Decr;
  }

  lemma OneFailedPoll(cfg: Config, s: State, r: Id)
    requires r in s.reqs && s.now >= 0 && s.reqs[r].phase.Polling?
    ensures var s', p := Next(cfg, s, Poll(r, s.now, Failed)), s.reqs[r].phase;
            && r in s'.reqs && s'.now == s.now && s'.leases == s.leases
            && s'.reqs[r].phase == if p.fails + 1 < cfg.maxFails then Polling(p.clean, p.fails + 1)
                                   else Leaving(p.clean, false)
  {
    hide Purge, Incr, Refresh, Decr;
  }

  lemma PollDisabled(cfg: Config, s: State, r: Id)
    requires r in s.reqs && !s.reqs[r].phase.Polling?
    ensures Next(cfg, s, Poll(r, s.now, Failed)) == s
  {
  }

  /** The same call again and again. */
  function Repeated(step: Step, k: nat): (steps: seq<Step>)
    ensures |steps| == k
  {
    seq(k, i requires 0 <= i < k => step)
  }

  /**
    A waiting request bears with exactly `maxFails - 1` failed insertions in a row (none, if that is negative)
    and gives up at the next one, keeping what is known about its last release.
   */
  lemma {:induction false} GivesUpExactly(cfg: Config, s: State, r: Id, k: nat)
    requires r in s.reqs && s.now >= 0 && s.reqs[r].phase.Polling? && s.reqs[r].phase.fails == 0
    ensures var s', clean := RunFrom(cfg, s, Repeated(Poll(r, s.now, Failed), k)), s.reqs[r].phase.clean;
            && r in s'.reqs && s'.now == s.now && s'.leases == s.leases
            && s'.reqs[r].phase == if k == 0 || k < cfg.maxFails then Polling(clean, k) else Leaving(clean, false)
  {
    hide Next;
    if k > 0 {
      var step := Poll(r, s.now, Failed);
      GivesUpExactly(cfg, s, r, k - 1);
      assert Repeated(step, k) == Repeated(step, k - 1) + [step];
      FromNext(cfg, s, Repeated(step, k - 1), step);
      var before := RunFrom(cfg, s, Repeated(step, k - 1));
      if before.reqs[r].phase.Polling? {
        OneFailedPoll(cfg, before, r);
      } else {
        PollDisabled(cfg, before, r);
      }
    }
  }
}
