/**
  Admission for one API key as a state machine: HTTP requests (with their waiting queue) and WebSocket
  turns share one lease set and one waiting counter.  Each step is one atomic store script or one
  stretch of request code between two awaits; steps interleave freely.

  A script call carries the caller's clock reading `at`, which may be older than the time at which it
  runs.  A call is answered, fails without effect, or (lease calls only) takes effect while its answer
  is lost.
 */
module Admission {
  import opened Leases

  /** `ttlMs` is the life the scripts give the whole key; it covers a lease and the clean-up grace. */
  datatype Config = Config(limit: nat, leaseMs: nat, ttlMs: nat, maxQueue: int, maxFails: nat)

  predicate ConfigOk(cfg: Config) { cfg.leaseMs <= cfg.ttlMs }

  /** `clean` records that the request's last release is known to have taken effect. */
  datatype Phase =
    | Starting                                // first insertion under way
    | Over                                    // inserted beyond the limit, must back out
    | Choosing(clean: bool)                   // refuse or join the queue
    | Joined(clean: bool)                     // counted as waiting, loop not entered yet
    | QueueFull(clean: bool)                  // counted in a full queue, must leave
    | QueueFullAgain(clean: bool)             // second attempt to leave, in the error handler
    | Polling(clean: bool, fails: nat)        // waiting for a slot
    | PollOver(fails: nat)                    // polled beyond the limit, must back out
    | Leaving(clean: bool, slot: bool)        // about to leave the queue, with or without a slot
    | Checking                                // has a slot, is the client still there?
    | Dropping                                // has a slot and gives it up
    | Admitted                                // running under its slot
    | Gone(clean: bool)                       // ended without admission

  /**
    `until` is the expiry last written for the request; `released` is the once-only flag of its release
    function and `decrs` the number of release calls it has made; `pending`: one of them is under way;
    `freed`: it was answered; `leaked`: the last attempt to leave the waiting counter failed.
   */
  datatype Request =
    Request(ws: bool, phase: Phase, until: int, released: bool, decrs: nat, pending: bool, freed: bool, leaked: bool)

  datatype State = State(now: int, leases: LeaseSet, ttlAt: int, queue: int, deletes: nat, reqs: map<Id, Request>)

  const INITIAL := State(0, map[], 0, 0, 0, map[])

  datatype Outcome = Answered | Failed | Lost

  datatype Step =
    | Tick(ms: nat)
    | KeyExpires
    | Sweep(at: int)
    | AdminPurge(at: int) | AdminCount | AdminDelete
    | Start(r: Id, ws: bool)
    | FirstIncr(r: Id, at: int, outcome: Outcome)
    | BackOut(r: Id, at: int, outcome: Outcome)
    | Refuse(r: Id)
    | JoinQueue(r: Id, ok: bool)
    | EnterWait(r: Id)
    | Crash(r: Id)
    | LeaveFull(r: Id, ok: bool)
    | GiveUp(r: Id)
    | Poll(r: Id, at: int, outcome: Outcome)
    | PollBackOut(r: Id, at: int, outcome: Outcome)
    | LeaveQueue(r: Id, ok: bool)
    | Admit(r: Id)
    | Abandon(r: Id)
    | Drop(r: Id, at: int, outcome: Outcome)
    | EndEvent(r: Id)
    | Release(r: Id, at: int, outcome: Outcome)
    | Renew(r: Id, at: int, outcome: Outcome)

  function SetPhase(s: State, r: Id, phase: Phase): State
    requires r in s.reqs
  {
    s.(reqs := s.reqs[r := s.reqs[r].(phase := phase)])
  }

  /** An insertion that runs: the lease, the key's life and the request's own record of its expiry. */
  function Insert(cfg: Config, s: State, r: Id, at: int): State
    requires r in s.reqs
  {
    s.(leases := Incr(s.leases, r, at + cfg.leaseMs, at), ttlAt := s.now + cfg.ttlMs,
       reqs := s.reqs[r := s.reqs[r].(until := at + cfg.leaseMs)])
  }

  function Remove(s: State, r: Id, at: int): State {
    s.(leases := Decr(s.leases, r, at))
  }

  /** A removal whose failure is swallowed by the caller. */
  function TryRemove(s: State, r: Id, at: int, outcome: Outcome): (s': State)
    ensures s' == s.(leases := s'.leases) && s'.leases.Keys <= s.leases.Keys
  {
    if outcome.Failed? then s else Remove(s, r, at)
  }

  /** The counter script never goes below zero. */
  function QueueDecr(s: State): State {
    s.(queue := if s.queue - 1 <= 0 then 0 else s.queue - 1)
  }

  /** The last attempt to leave the waiting counter; its failure is swallowed. */
  function LeaveCounter(s: State, r: Id, ok: bool, phase: Phase): State
    requires r in s.reqs
  {
    (if ok then QueueDecr(s) else s).(reqs := s.reqs[r := s.reqs[r].(phase := phase, leaked := !ok)])
  }

  function CallTime(step: Step): int {
    match step
    case Sweep(at) => at
    case AdminPurge(at) => at
    case FirstIncr(_, at, _) => at
    case BackOut(_, at, _) => at
    case Poll(_, at, _) => at
    case PollBackOut(_, at, _) => at
    case Drop(_, at, _) => at
    case Release(_, at, _) => at
    case Renew(_, at, _) => at
    case _ => 0
  }

  /** The request a step belongs to, if it belongs to one that must already exist. */
  predicate Enabled(s: State, step: Step) {
    CallTime(step) <= s.now &&
    match step
    case Tick(_) => true
    case KeyExpires => s.now >= s.ttlAt
    case Sweep(_) => true
    case AdminPurge(_) => true
    case AdminCount => true
    case AdminDelete => s.deletes > 0
    case Start(r, _) => r !in s.reqs
    case FirstIncr(r, _, _) => r in s.reqs && s.reqs[r].phase.Starting?
    case BackOut(r, _, _) => r in s.reqs && s.reqs[r].phase.Over?
    case Refuse(r) => r in s.reqs && s.reqs[r].phase.Choosing?
    case JoinQueue(r, _) => r in s.reqs && s.reqs[r].phase.Choosing?
    case EnterWait(r) => r in s.reqs && s.reqs[r].phase.Joined?
    case Crash(r) => r in s.reqs && s.reqs[r].phase.Joined?
    case LeaveFull(r, _) => r in s.reqs && (s.reqs[r].phase.QueueFull? || s.reqs[r].phase.QueueFullAgain?)
    case GiveUp(r) => r in s.reqs && s.reqs[r].phase.Polling?
    case Poll(r, _, _) => r in s.reqs && s.reqs[r].phase.Polling?
    case PollBackOut(r, _, _) => r in s.reqs && s.reqs[r].phase.PollOver?
    case LeaveQueue(r, _) => r in s.reqs && s.reqs[r].phase.Leaving?
    case Admit(r) => r in s.reqs && s.reqs[r].phase.Checking?
    case Abandon(r) => r in s.reqs && s.reqs[r].phase.Checking?
    case Drop(r, _, _) => r in s.reqs && s.reqs[r].phase.Dropping?
    case EndEvent(r) => r in s.reqs && s.reqs[r].phase.Admitted?
    case Release(r, _, _) => r in s.reqs && s.reqs[r].phase.Admitted? && s.reqs[r].pending
    case Renew(r, _, _) => r in s.reqs && s.reqs[r].phase.Admitted?
  }

  function Next(cfg: Config, s: State, step: Step): State {
    if !Enabled(s, step) then s
    else
      match step
      case Tick(ms) => s.(now := s.now + ms)
      case KeyExpires => s.(leases := map[])
      case Sweep(at) => s.(leases := Purge(s.leases, at))
      case AdminPurge(at) => s.(leases := Purge(s.leases, at))
      case AdminCount => if s.leases == map[] then s.(deletes := s.deletes + 1) else s
      case AdminDelete => s.(leases := map[], deletes := s.deletes - 1)
      case Start(r, ws) => s.(reqs := s.reqs[r := Request(ws, Starting, 0, false, 0, false, false, false)])
      case FirstIncr(r, at, outcome) => FirstIncrStep(cfg, s, r, at, outcome)
      case BackOut(r, at, outcome) =>
        var clean := outcome.Answered?;
        SetPhase(TryRemove(s, r, at, outcome), r, if s.reqs[r].ws then Gone(clean) else Choosing(clean))
      case Refuse(r) => SetPhase(s, r, Gone(s.reqs[r].phase.clean))
      case JoinQueue(r, ok) =>
        var clean := s.reqs[r].phase.clean;
        if !ok then SetPhase(s, r, Gone(clean))
        else
          SetPhase(s.(queue := s.queue + 1), r, if s.queue + 1 > cfg.maxQueue then QueueFull(clean) else Joined(clean))
      case EnterWait(r) => SetPhase(s, r, Polling(s.reqs[r].phase.clean, 0))
      case Crash(r) => SetPhase(s, r, QueueFullAgain(s.reqs[r].phase.clean))
      case LeaveFull(r, ok) =>
        var p := s.reqs[r].phase;
        if !ok && p.QueueFull? then SetPhase(s, r, QueueFullAgain(p.clean))
        else LeaveCounter(s, r, ok, Gone(p.clean))
      case GiveUp(r) => SetPhase(s, r, Leaving(s.reqs[r].phase.clean, false))
      case Poll(r, at, outcome) => PollStep(cfg, s, r, at, outcome)
      case PollBackOut(r, at, outcome) =>
        SetPhase(TryRemove(s, r, at, outcome), r, Polling(outcome.Answered?, s.reqs[r].phase.fails))
      case LeaveQueue(r, ok) =>
        var p := s.reqs[r].phase;
        LeaveCounter(s, r, ok, if p.slot then Checking else Gone(p.clean))
      case Admit(r) => SetPhase(s, r, Admitted)
      case Abandon(r) => SetPhase(s, r, Dropping)
      case Drop(r, at, outcome) => SetPhase(TryRemove(s, r, at, outcome), r, Gone(outcome.Answered?))
      case EndEvent(r) =>
        if s.reqs[r].released then s
        else s.(reqs := s.reqs[r := s.reqs[r].(released := true, decrs := s.reqs[r].decrs + 1, pending := true)])
      case Release(r, at, outcome) =>
        TryRemove(s, r, at, outcome).(reqs := s.reqs[r := s.reqs[r].(pending := false, freed := outcome.Answered?)])
      case Renew(r, at, outcome) => if outcome.Failed? then s else RenewStep(cfg, s, r, at)
  }

  /** Insert first, check the count afterwards. */
  function FirstIncrStep(cfg: Config, s: State, r: Id, at: int, outcome: Outcome): State
    requires r in s.reqs
  {
    if outcome.Failed? then SetPhase(s, r, Gone(true))
    else
      var s1 := Insert(cfg, s, r, at);
      if outcome.Lost? then SetPhase(s1, r, Gone(false))
      else SetPhase(s1, r, if |s1.leases| <= cfg.limit then Admitted else Over)
  }

  function PollStep(cfg: Config, s: State, r: Id, at: int, outcome: Outcome): State
    requires r in s.reqs && s.reqs[r].phase.Polling?
  {
    var p := s.reqs[r].phase;
    if outcome.Answered? then
      var s1 := Insert(cfg, s, r, at);
      SetPhase(s1, r, if |s1.leases| <= cfg.limit then Leaving(false, true) else PollOver(0))
    else
      var s1 := if outcome.Lost? then Insert(cfg, s, r, at) else s;
      var clean := p.clean && outcome.Failed?;
      SetPhase(s1, r, if p.fails + 1 >= cfg.maxFails then Leaving(clean, false) else Polling(clean, p.fails + 1))
  }

  function RenewStep(cfg: Config, s: State, r: Id, at: int): State
    requires r in s.reqs
  {
    if r in Purge(s.leases, at) then
      s.(leases := Refresh(s.leases, r, at + cfg.leaseMs, at), ttlAt := s.now + cfg.ttlMs,
         reqs := s.reqs[r := s.reqs[r].(until := at + cfg.leaseMs)])
    else s.(leases := Purge(s.leases, at))
  }

  function Run(cfg: Config, steps: seq<Step>): State {
    if steps == [] then INITIAL else Next(cfg, Run(cfg, steps[..|steps| - 1]), steps[|steps| - 1])
  }

  // ---------------------------------------------------------------------------------------------
  // Admission safety
  // ---------------------------------------------------------------------------------------------

  /** The request was told that it has a slot. */
  predicate Granted(q: Request) {
    (q.phase.Leaving? && q.phase.slot) || q.phase.Checking? || q.phase.Dropping? || q.phase.Admitted?
  }

  function Holders(s: State): set<Id> {
    set r | r in s.leases && r in s.reqs && Granted(s.reqs[r])
  }

  /** Granted requests whose lease has not expired: the ones that occupy the key right now. */
  function LiveHolders(s: State): set<Id> {
    set r | r in s.leases && s.leases[r] > s.now && r in s.reqs && Granted(s.reqs[r])
  }

  lemma InsertKeepsHolders(cfg: Config, s: State, r: Id, at: int, phase: Phase)
    requires r in s.reqs && |Holders(s)| <= cfg.limit
    requires var s1 := Insert(cfg, s, r, at); |s1.leases| <= cfg.limit || !Granted(s.reqs[r].(phase := phase))
    ensures |Holders(SetPhase(Insert(cfg, s, r, at), r, phase))| <= cfg.limit
  {
    var s2 := SetPhase(Insert(cfg, s, r, at), r, phase);
    if |s2.leases| <= cfg.limit {
      SubsetSize(Holders(s2), s2.leases.Keys);
    } else {
      SubsetSize(Holders(s2), Holders(s));
    }
  }

  lemma ShrinkKeepsHolders(s: State, s': State)
    requires s'.leases.Keys <= s.leases.Keys
    requires forall r :: r in s'.reqs && Granted(s'.reqs[r]) ==> r in s.reqs && Granted(s.reqs[r])
    ensures |Holders(s')| <= |Holders(s)|
  {
    SubsetSize(Holders(s'), Holders(s));
  }

  predicate Inserts(s: State, step: Step) {
    Enabled(s, step) && ((step.FirstIncr? && !step.outcome.Failed?) || (step.Poll? && !step.outcome.Failed?))
  }

  /** The steps of a request that is still on its way to a slot, polling aside. */
  predicate Entering(step: Step) {
    step.Start? || step.FirstIncr? || step.BackOut? || step.Refuse? || step.JoinQueue? || step.EnterWait? || step.Crash?
    || step.LeaveFull? || step.GiveUp?
  }

  /** An insertion writes its own lease and the key's life, and moves on from two phases only. */
  ghost predicate InsertsOne(cfg: Config, s: State, s': State, r: Id, at: int) {
    && r in s.reqs && r in s'.reqs && at <= s.now
    && var was, p := s.reqs[r].phase, s'.reqs[r].phase;
       && s' == SetPhase(Insert(cfg, s, r, at), r, p)
       && (if was.Starting? then p == Gone(false) || p == Admitted || p == Over
           else was.Polling? && ((p.Leaving? && !p.clean) || (p.Polling? && !p.clean) || p.PollOver?))
  }

  lemma FirstInsertion(cfg: Config, s: State, step: Step)
    requires Inserts(s, step) && step.FirstIncr?
    ensures InsertsOne(cfg, s, Next(cfg, s, step), step.r, step.at)
  {
    hide Incr, PollStep;
  }

  lemma PollInsertion(cfg: Config, s: State, step: Step)
    requires Inserts(s, step) && step.Poll?
    ensures InsertsOne(cfg, s, Next(cfg, s, step), step.r, step.at)
  {
    hide Incr, FirstIncrStep;
  }

  lemma InsertionShape(cfg: Config, s: State, step: Step)
    requires Inserts(s, step)
    ensures InsertsOne(cfg, s, Next(cfg, s, step), step.r, step.at)
  {
    hide Next, Enabled, InsertsOne;
    if step.FirstIncr? { FirstInsertion(cfg, s, step); } else { PollInsertion(cfg, s, step); }
  }

  /** Only an insertion can add a member to the store. */
  lemma OthersOnlyRemove(cfg: Config, s: State, step: Step)
    requires !Inserts(s, step)
    ensures Next(cfg, s, step).leases.Keys <= s.leases.Keys
  {
  }

  /** Only an insertion within the limit grants a slot. */
  lemma OthersGrantNothing(cfg: Config, s: State, step: Step, r: Id)
    requires !Inserts(s, step) && r in Next(cfg, s, step).reqs && Granted(Next(cfg, s, step).reqs[r])
    ensures r in s.reqs && Granted(s.reqs[r])
  {
    hide Purge, Incr, Refresh, Decr;
  }

  lemma InsertionKeepsHolders(cfg: Config, s: State, step: Step)
    requires Inserts(s, step) && |Holders(s)| <= cfg.limit
    ensures |Holders(Next(cfg, s, step))| <= cfg.limit
  {
    hide Incr, Holders, Next, Insert, SetPhase;
    InsertionShape(cfg, s, step);
    InsertionGrants(cfg, s, step);
    InsertKeepsHolders(cfg, s, step.r, step.at, Next(cfg, s, step).reqs[step.r].phase);
  }

  /** An insertion grants a slot only within the limit. */
  lemma InsertionGrants(cfg: Config, s: State, step: Step)
    requires Inserts(s, step)
    ensures step.r in s.reqs && step.r in Next(cfg, s, step).reqs
    ensures |Insert(cfg, s, step.r, step.at).leases| <= cfg.limit
         || !Granted(s.reqs[step.r].(phase := Next(cfg, s, step).reqs[step.r].phase))
  {
    hide Incr;
  }

  lemma NextKeepsHolders(cfg: Config, s: State, step: Step)
    requires |Holders(s)| <= cfg.limit
    ensures |Holders(Next(cfg, s, step))| <= cfg.limit
  {
    hide Next, Holders;
    if Inserts(s, step) {
      InsertionKeepsHolders(cfg, s, step);
    } else {
      var s' := Next(cfg, s, step);
      OthersOnlyRemove(cfg, s, step);
      forall r | r in s'.reqs && Granted(s'.reqs[r]) ensures r in s.reqs && Granted(s.reqs[r]) {
        OthersGrantNothing(cfg, s, step, r);
      }
      ShrinkKeepsHolders(s, s');
    }
  }

  /**
    Admission safety.  In every interleaving, with any clock skew between call and execution, any
    failures and lost answers, renewals, expiries and clean-ups: the granted requests whose lease in the
    store is alive never exceed the limit, although each inserts itself before it checks.
   */
  lemma {:induction false} AdmissionSafety(cfg: Config, steps: seq<Step>)
    ensures |LiveHolders(Run(cfg, steps))| <= |Holders(Run(cfg, steps))| <= cfg.limit
  {
    var s := Run(cfg, steps);
    if steps == [] {
      assert Holders(s) == {};
    } else {
      AdmissionSafety(cfg, steps[..|steps| - 1]);
      NextKeepsHolders(cfg, Run(cfg, steps[..|steps| - 1]), steps[|steps| - 1]);
    }
    SubsetSize(LiveHolders(s), Holders(s));
  }
}
