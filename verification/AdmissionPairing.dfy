/**
  What admission keeps besides the limit: leases last as long as they were written for, the waiting
  counter counts the waiting, exits leave nothing behind, and a slot is released exactly once.
 */
module AdmissionPairing {
  import opened Leases
  import opened Admission

  // ---------------------------------------------------------------------------------------------
  // Leases last
  // ---------------------------------------------------------------------------------------------

  /** By its own record the request holds an unexpired lease. */
  predicate OwnsLease(s: State, q: Request) {
    Granted(q) && !q.released && q.until > s.now
  }

  function Owners(s: State): set<Id> {
    set r | r in s.reqs && OwnsLease(s, s.reqs[r])
  }

  /** Every owner's lease is in the store, with the expiry it last wrote. */
  ghost predicate Kept(s: State) {
    forall r :: r in s.reqs && OwnsLease(s, s.reqs[r]) ==> r in s.leases && s.leases[r] == s.reqs[r].until
  }

  /** The key outlives its members, and a release under way was called for. */
  ghost predicate Orderly(cfg: Config, s: State) {
    && s.ttlAt <= s.now + cfg.ttlMs
    && (forall r :: r in s.leases ==> s.leases[r] <= s.ttlAt)
    && (forall r :: r in s.reqs && s.reqs[r].pending ==> s.reqs[r].released)
  }

  /** The administrator's delete, a separate call after its count, comes while nobody owns a lease. */
  predicate DeleteInTime(s: State, step: Step) {
    step.AdminDelete? && s.deletes > 0 ==> Owners(s) == {}
  }

  predicate DeletesInTime(cfg: Config, steps: seq<Step>) {
    steps == [] ||
    (DeletesInTime(cfg, steps[..|steps| - 1]) && DeleteInTime(Run(cfg, steps[..|steps| - 1]), steps[|steps| - 1]))
  }

  lemma NextOrderly(cfg: Config, s: State, step: Step)
    requires ConfigOk(cfg) && Orderly(cfg, s)
    ensures Orderly(cfg, Next(cfg, s, step))
  {
    hide Next, Orderly;
    if Inserts(s, step) {
      InsertionOrderly(cfg, s, step);
    } else if Entering(step) {
      EnteringOrderly(cfg, s, step);
    } else {
      LaterOrderly(cfg, s, step);
    }
  }

  lemma EnteringOrderly(cfg: Config, s: State, step: Step)
    requires ConfigOk(cfg) && Orderly(cfg, s) && Entering(step) && !Inserts(s, step)
    ensures Orderly(cfg, Next(cfg, s, step))
  {
  }

  lemma LaterOrderly(cfg: Config, s: State, step: Step)
    requires ConfigOk(cfg) && Orderly(cfg, s) && !Entering(step) && !Inserts(s, step)
    ensures Orderly(cfg, Next(cfg, s, step))
  {
  }

  lemma InsertionOrderly(cfg: Config, s: State, step: Step)
    requires ConfigOk(cfg) && Orderly(cfg, s) && Inserts(s, step)
    ensures Orderly(cfg, Next(cfg, s, step))
  {
    InsertionShape(cfg, s, step);
    hide Next;
  }

  /** A holder after the step that was one before, with the same record or a renewed one. */
  ghost predicate HeldAlready(s: State, s': State, r: Id) {
    && r in s.reqs && r in s'.reqs && Granted(s.reqs[r]) && !s.reqs[r].released
    && (s'.reqs[r].until == s.reqs[r].until || (r in s'.leases && s'.leases[r] == s'.reqs[r].until))
  }

  lemma HeldByOwnStep(cfg: Config, s: State, step: Step, r: Id)
    requires r in Actor(step) && !Entering(step) && !Inserts(s, step)
    requires var s' := Next(cfg, s, step); r in s'.reqs && Granted(s'.reqs[r]) && !s'.reqs[r].released
    ensures HeldAlready(s, Next(cfg, s, step), r)
  {
    hide Purge, Decr, TryRemove;
  }

  lemma HeldByEntering(cfg: Config, s: State, step: Step, r: Id)
    requires r in Actor(step) && Entering(step) && !Inserts(s, step)
    requires var s' := Next(cfg, s, step); r in s'.reqs && Granted(s'.reqs[r]) && !s'.reqs[r].released
    ensures HeldAlready(s, Next(cfg, s, step), r)
  {
    hide Next, Enabled, Inserts, Entering;
    if Enabled(s, step) { EnteringShape(cfg, s, step, r); } else { DisabledStays(cfg, s, step); }
  }

  /** Without an insertion of its own, a holder was one before; only a renewal changes its record. */
  lemma HeldBefore(cfg: Config, s: State, step: Step, r: Id)
    requires !(Inserts(s, step) && step.r == r)
    requires var s' := Next(cfg, s, step); r in s'.reqs && Granted(s'.reqs[r]) && !s'.reqs[r].released
    ensures HeldAlready(s, Next(cfg, s, step), r)
  {
    hide Next, Granted;
    if r in Actor(step) {
      if Entering(step) {
        HeldByEntering(cfg, s, step, r);
      } else {
        HeldByOwnStep(cfg, s, step, r);
      }
    } else {
      OthersUntouched(cfg, s, step, r);
    }
  }

  ghost predicate OwnsMember(cfg: Config, s: State, r: Id) {
    && Orderly(cfg, s) && r in s.reqs && OwnsLease(s, s.reqs[r])
    && r in s.leases && s.leases[r] == s.reqs[r].until
  }

  ghost predicate MemberThere(s: State, s': State, r: Id) {
    r in s.leases && r in s'.leases && r in s'.reqs && (s'.leases[r] == s.leases[r] || s'.leases[r] == s'.reqs[r].until)
  }

  /** The store's own steps leave an unexpired member alone, a late delete aside. */
  lemma SurvivesStore(cfg: Config, s: State, step: Step, r: Id)
    requires OwnsMember(cfg, s, r) && DeleteInTime(s, step) && Actor(step) == {}
    ensures MemberThere(s, Next(cfg, s, step), r)
  {
    if step.AdminDelete? { assert r in Owners(s); }
  }

  lemma SurvivesInsertion(cfg: Config, s: State, step: Step, r: Id)
    requires OwnsMember(cfg, s, r) && Inserts(s, step)
    ensures MemberThere(s, Next(cfg, s, step), r)
  {
    InsertionShape(cfg, s, step);
    hide Next;
  }

  lemma SurvivesEntering(cfg: Config, s: State, step: Step, r: Id)
    requires OwnsMember(cfg, s, r) && Entering(step) && !Inserts(s, step)
    ensures MemberThere(s, Next(cfg, s, step), r)
  {
  }

  lemma SurvivesHolding(cfg: Config, s: State, step: Step, r: Id)
    requires OwnsMember(cfg, s, r) && Actor(step) != {} && !Entering(step) && !Inserts(s, step)
    requires var s' := Next(cfg, s, step); r in s'.reqs && Granted(s'.reqs[r]) && !s'.reqs[r].released
    ensures MemberThere(s, Next(cfg, s, step), r)
  {
  }

  /** While its request holds on to it, an unexpired member stays in the store. */
  lemma MemberSurvives(cfg: Config, s: State, step: Step, r: Id)
    requires OwnsMember(cfg, s, r) && DeleteInTime(s, step)
    requires var s' := Next(cfg, s, step); r in s'.reqs && Granted(s'.reqs[r]) && !s'.reqs[r].released
    ensures MemberThere(s, Next(cfg, s, step), r)
  {
    hide Next, OwnsMember, MemberThere;
    if Actor(step) == {} {
      SurvivesStore(cfg, s, step, r);
    } else if Inserts(s, step) {
      SurvivesInsertion(cfg, s, step, r);
    } else if Entering(step) {
      SurvivesEntering(cfg, s, step, r);
    } else {
      SurvivesHolding(cfg, s, step, r);
    }
  }

  lemma InsertionIsRecorded(cfg: Config, s: State, step: Step)
    requires Inserts(s, step)
    ensures var s' := Next(cfg, s, step); step.r in s'.leases && s'.leases[step.r] == s'.reqs[step.r].until
  {
    InsertionShape(cfg, s, step);
    hide Next;
  }

  lemma TimePasses(cfg: Config, s: State, step: Step)
    ensures Next(cfg, s, step).now >= s.now
  {
    hide Enabled, Incr, Purge, Refresh, Decr;
  }

  lemma NextKeeps(cfg: Config, s: State, step: Step)
    requires ConfigOk(cfg) && Orderly(cfg, s) && Kept(s) && DeleteInTime(s, step)
    ensures Kept(Next(cfg, s, step))
  {
    hide Next, Orderly, Enabled;
    var s' := Next(cfg, s, step);
    TimePasses(cfg, s, step);
    forall r | r in s'.reqs && OwnsLease(s', s'.reqs[r]) ensures r in s'.leases && s'.leases[r] == s'.reqs[r].until {
      if Inserts(s, step) && step.r == r {
        InsertionIsRecorded(cfg, s, step);
      } else {
        HeldBefore(cfg, s, step, r);
        if s'.reqs[r].until == s.reqs[r].until {
          MemberSurvives(cfg, s, step, r);
        }
      }
    }
  }

  /**
    For every run whose deletes come in time: no owner loses its lease, so the requests that own an
    unexpired lease by their own record never exceed the limit.
   */
  lemma {:induction false} OwnersWithinLimit(cfg: Config, steps: seq<Step>)
    requires ConfigOk(cfg) && DeletesInTime(cfg, steps)
    ensures Orderly(cfg, Run(cfg, steps)) && Kept(Run(cfg, steps))
    ensures |Owners(Run(cfg, steps))| <= cfg.limit
  {
    var s := Run(cfg, steps);
    if steps != [] {
      var before, last := steps[..|steps| - 1], steps[|steps| - 1];
      OwnersWithinLimit(cfg, before);
      NextOrderly(cfg, Run(cfg, before), last);
      NextKeeps(cfg, Run(cfg, before), last);
    }
    AdmissionSafety(cfg, steps);
    SubsetSize(Owners(s), Holders(s));
  }

  lemma RunAppend(cfg: Config, steps: seq<Step>, step: Step)
    ensures Run(cfg, steps + [step]) == Next(cfg, Run(cfg, steps), step)
    ensures DeletesInTime(cfg, steps + [step]) <==> DeletesInTime(cfg, steps) && DeleteInTime(Run(cfg, steps), step)
  {
    assert (steps + [step])[..|steps|] == steps;
  }

  // ---------------------------------------------------------------------------------------------
  // The waiting counter
  // ---------------------------------------------------------------------------------------------

  predicate InQueue(q: Request) {
    q.phase.Joined? || q.phase.QueueFull? || q.phase.QueueFullAgain? || q.phase.Polling? || q.phase.PollOver?
    || q.phase.Leaving?
  }

  /** In the waiting section proper: let in, not turned away. */
  predicate Waits(q: Request) {
    q.phase.Joined? || q.phase.Polling? || q.phase.PollOver? || q.phase.Leaving?
  }

  function Waiting(s: State): set<Id> {
    set r | r in s.reqs && InQueue(s.reqs[r])
  }

  /** Left, although no attempt to leave the counter succeeded. */
  function Leaked(s: State): set<Id> {
    set r | r in s.reqs && s.reqs[r].leaked
  }

  function LetIn(s: State): set<Id> {
    set r | r in s.reqs && Waits(s.reqs[r])
  }

  ghost predicate Counted(cfg: Config, s: State) {
    && s.queue == |Waiting(s)| + |Leaked(s)|
    && (forall r :: r in s.reqs && s.reqs[r].leaked ==> Left(s.reqs[r]))
    && (0 <= cfg.maxQueue ==> |LetIn(s)| <= cfg.maxQueue)
  }

  predicate Left(q: Request) {
    q.phase.Checking? || q.phase.Dropping? || q.phase.Admitted? || q.phase.Gone?
  }

  /** The request a step acts for. */
  function Actor(step: Step): set<Id> {
    match step
    case Tick(_) => {} case KeyExpires => {} case Sweep(_) => {}
    case AdminPurge(_) => {} case AdminCount => {} case AdminDelete => {}
    case Start(r, _) => {r} case FirstIncr(r, _, _) => {r} case BackOut(r, _, _) => {r} case Refuse(r) => {r}
    case JoinQueue(r, _) => {r} case EnterWait(r) => {r} case Crash(r) => {r} case LeaveFull(r, _) => {r}
    case GiveUp(r) => {r} case Poll(r, _, _) => {r} case PollBackOut(r, _, _) => {r} case LeaveQueue(r, _) => {r}
    case Admit(r) => {r} case Abandon(r) => {r} case Drop(r, _, _) => {r} case EndEvent(r) => {r}
    case Release(r, _, _) => {r} case Renew(r, _, _) => {r}
  }

  /** On its way in, a request changes its phase, and the mark of a failed leave, and nothing else. */
  ghost predicate Enters(s: State, s': State, step: Step, r: Id) {
    && r in s'.reqs
    && var q' := s'.reqs[r];
       if step.Start? then r !in s.reqs && q' == Request(step.ws, Starting, 0, false, 0, false, false, false)
       else
         && r in s.reqs && q' == s.reqs[r].(phase := q'.phase, leaked := q'.leaked)
         && !s.reqs[r].phase.Admitted? && !Granted(q')
  }

  /** The steps around the waiting counter. */
  predicate Queues(step: Step) {
    step.JoinQueue? || step.EnterWait? || step.Crash? || step.LeaveFull? || step.GiveUp?
  }

  lemma EntersQueue(cfg: Config, s: State, step: Step, r: Id)
    requires r in Actor(step) && Queues(step) && Enabled(s, step)
    ensures Enters(s, Next(cfg, s, step), step, r)
  {
    hide Purge, Incr, Refresh, Decr, TryRemove;
  }

  lemma EntersFirst(cfg: Config, s: State, step: Step, r: Id)
    requires r in Actor(step) && Entering(step) && !Queues(step) && !Inserts(s, step) && Enabled(s, step)
    ensures Enters(s, Next(cfg, s, step), step, r)
  {
    hide Purge, Incr, Refresh, Decr, TryRemove;
  }

  lemma EnteringShape(cfg: Config, s: State, step: Step, r: Id)
    requires r in Actor(step) && Entering(step) && !Inserts(s, step) && Enabled(s, step)
    ensures Enters(s, Next(cfg, s, step), step, r)
  {
    hide Next, Enabled, Entering, Inserts, Actor, Enters;
    if Queues(step) { EntersQueue(cfg, s, step, r); } else { EntersFirst(cfg, s, step, r); }
  }

  ghost predicate SameRecord(s: State, s': State, r: Id) {
    (r in s'.reqs <==> r in s.reqs) && (r in s.reqs ==> s'.reqs[r] == s.reqs[r])
  }

  lemma UntouchedEntering(cfg: Config, s: State, step: Step, r: Id)
    requires r !in Actor(step) && Entering(step)
    ensures SameRecord(s, Next(cfg, s, step), r)
  {
    hide Purge, Incr, Refresh, Decr;
  }

  lemma UntouchedLater(cfg: Config, s: State, step: Step, r: Id)
    requires r !in Actor(step) && !Entering(step)
    ensures SameRecord(s, Next(cfg, s, step), r)
  {
    hide Purge, Incr, Refresh, Decr;
  }

  /** A step touches the record of its own request only. */
  lemma OthersUntouched(cfg: Config, s: State, step: Step, r: Id)
    requires r !in Actor(step)
    ensures r in Next(cfg, s, step).reqs <==> r in s.reqs
    ensures r in s.reqs ==> Next(cfg, s, step).reqs[r] == s.reqs[r]
  {
    hide Next, Actor;
    if Entering(step) {
      UntouchedEntering(cfg, s, step, r);
    } else {
      UntouchedLater(cfg, s, step, r);
    }
  }

  /** The counter moves with its request: by one when the request joins, leaves, or leaves for the last time in vain. */
  ghost predicate QueueMoves(cfg: Config, s: State, s': State, r: Id) {
    var was, now := r in s.reqs && InQueue(s.reqs[r]), r in s'.reqs && InQueue(s'.reqs[r]);
    var leaked, leaks := r in s.reqs && s.reqs[r].leaked, r in s'.reqs && s'.reqs[r].leaked;
    && s'.queue - s.queue
        == (if now then 1 else 0) - (if was then 1 else 0) + (if leaks then 1 else 0) - (if leaked then 1 else 0)
    && (leaks ==> Left(s'.reqs[r]))
    && (r in s'.reqs && Waits(s'.reqs[r]) ==>
          (r in s.reqs && Waits(s.reqs[r])) || (!was && s'.queue <= cfg.maxQueue))
  }

  ghost predicate QueueReady(s: State, step: Step, r: Id) {
    && r in Actor(step) && 0 <= s.queue
    && (r in s.reqs && s.reqs[r].leaked ==> Left(s.reqs[r]))
    && (r in s.reqs && InQueue(s.reqs[r]) ==> s.queue > 0)
  }

  lemma QueueInserting(cfg: Config, s: State, step: Step, r: Id)
    requires QueueReady(s, step, r) && Inserts(s, step)
    ensures QueueMoves(cfg, s, Next(cfg, s, step), r)
  {
    InsertionShape(cfg, s, step);
    hide Next, Incr;
  }

  lemma QueueEntering(cfg: Config, s: State, step: Step, r: Id)
    requires QueueReady(s, step, r) && Entering(step) && !Inserts(s, step)
    ensures QueueMoves(cfg, s, Next(cfg, s, step), r)
  {
    hide Purge, Incr, Refresh, Decr, TryRemove;
  }

  lemma QueueLeaving(cfg: Config, s: State, step: Step, r: Id)
    requires QueueReady(s, step, r) && !Entering(step) && !Inserts(s, step)
    ensures QueueMoves(cfg, s, Next(cfg, s, step), r)
  {
    hide Purge, Incr, Refresh, Decr, TryRemove;
  }

  /** What a step means for its own request and for the counter. */
  lemma QueueEffect(cfg: Config, s: State, step: Step, r: Id)
    requires QueueReady(s, step, r)
    ensures QueueMoves(cfg, s, Next(cfg, s, step), r)
  {
    hide Next, QueueReady, QueueMoves;
    if Inserts(s, step) {
      QueueInserting(cfg, s, step, r);
    } else if Entering(step) {
      QueueEntering(cfg, s, step, r);
    } else {
      QueueLeaving(cfg, s, step, r);
    }
  }

  lemma NoActorNoQueue(cfg: Config, s: State, step: Step)
    requires Actor(step) == {}
    ensures Next(cfg, s, step).queue == s.queue && Next(cfg, s, step).reqs == s.reqs
  {
  }

  /** Sets that differ at most in one element. */
  lemma SizeChange(a: set<Id>, b: set<Id>, r: Id)
    requires forall x :: x != r ==> (x in a <==> x in b)
    ensures |b| - |a| == (if r in b then 1 else 0) - (if r in a then 1 else 0)
  {
    assert a - {r} == b - {r};
    assert r in a ==> |a| == |a - {r}| + 1;
    assert r !in a ==> a - {r} == a;
    assert r in b ==> |b| == |b - {r}| + 1;
    assert r !in b ==> b - {r} == b;
  }

  lemma NextCounted(cfg: Config, s: State, step: Step)
    requires Counted(cfg, s)
    ensures Counted(cfg, Next(cfg, s, step))
  {
    var s' := Next(cfg, s, step);
    hide Counted, Next;
    if Actor(step) == {} {
      NoActorNoQueue(cfg, s, step);
      SameCount(cfg, s, s');
    } else {
      var r :| r in Actor(step);
      assert Actor(step) == {r};
      CountedIsReady(cfg, s, step, r);
      QueueEffect(cfg, s, step, r);
      forall x | x != r ensures (x in s.reqs <==> x in s'.reqs) && (x in s.reqs ==> s'.reqs[x] == s.reqs[x]) {
        OthersUntouched(cfg, s, step, x);
      }
      CountedMoves(cfg, s, s', r);
    }
  }

  lemma SameCount(cfg: Config, s: State, s': State)
    requires Counted(cfg, s) && s'.queue == s.queue && s'.reqs == s.reqs
    ensures Counted(cfg, s')
  {
    assert Waiting(s') == Waiting(s) && Leaked(s') == Leaked(s) && LetIn(s') == LetIn(s);
  }

  lemma CountedIsReady(cfg: Config, s: State, step: Step, r: Id)
    requires Counted(cfg, s) && r in Actor(step)
    ensures QueueReady(s, step, r)
  {
    if r in s.reqs && InQueue(s.reqs[r]) { assert r in Waiting(s); }
  }

  lemma CountedMoves(cfg: Config, s: State, s': State, r: Id)
    requires Counted(cfg, s) && QueueMoves(cfg, s, s', r)
    requires forall x :: x != r ==> (x in s.reqs <==> x in s'.reqs) && (x in s.reqs ==> s'.reqs[x] == s.reqs[x])
    ensures Counted(cfg, s')
  {
    SizeChange(Waiting(s), Waiting(s'), r);
    SizeChange(Leaked(s), Leaked(s'), r);
    SizeChange(LetIn(s), LetIn(s'), r);
    SubsetSize(LetIn(s'), Waiting(s'));
  }

  /**
    Queue pairing.  When a call on the waiting counter either succeeds or has no effect, the counter is
    at every moment the number of requests in the waiting section plus the number of those that left it
    after their last attempt to leave had failed; at most `maxQueue` requests wait.
   */
  lemma {:induction false} QueuePairing(cfg: Config, steps: seq<Step>)
    ensures Counted(cfg, Run(cfg, steps))
  {
    if steps == [] {
      assert Waiting(INITIAL) == {} && Leaked(INITIAL) == {} && LetIn(INITIAL) == {};
    } else {
      QueuePairing(cfg, steps[..|steps| - 1]);
      NextCounted(cfg, Run(cfg, steps[..|steps| - 1]), steps[|steps| - 1]);
    }
  }

  // ---------------------------------------------------------------------------------------------
  // Exits
  // ---------------------------------------------------------------------------------------------

  /** Nothing inserted yet, or everything inserted is known to have been taken out. */
  predicate LeftNothing(q: Request) {
    match q.phase
    case Starting => true
    case Choosing(clean) => clean
    case Joined(clean) => clean
    case QueueFull(clean) => clean
    case QueueFullAgain(clean) => clean
    case Polling(clean, _) => clean
    case Leaving(clean, slot) => clean && !slot
    case Gone(clean) => clean
    case Admitted => q.freed
    case _ => false
  }

  ghost predicate Tidy(s: State) {
    && (forall r :: r in s.leases ==> r in s.reqs)
    && (forall r :: r in s.reqs && LeftNothing(s.reqs[r]) ==> r !in s.leases)
    && (forall r :: r in s.reqs ==> FlagsFit(s.reqs[r]))
  }

  /** A step puts no member into the store but its own request's. */
  lemma OthersNotInserted(cfg: Config, s: State, step: Step, r: Id)
    requires r in Next(cfg, s, step).leases && r !in Actor(step)
    ensures r in s.leases
  {
    if !Inserts(s, step) { OthersOnlyRemove(cfg, s, step); }
  }

  lemma OwnLease(cfg: Config, s: State, step: Step, r: Id)
    requires Tidy(s) && r in Next(cfg, s, step).leases && r in Actor(step)
    ensures r in Next(cfg, s, step).reqs && !LeftNothing(Next(cfg, s, step).reqs[r])
  {
    hide Next, Insert;
    if Enabled(s, step) {
      if Inserts(s, step) {
        InsertionUnaccounted(cfg, s, step);
      } else {
        OthersOnlyRemove(cfg, s, step);
        assert r in s.leases && r in s.reqs && !LeftNothing(s.reqs[r]);
        StaysUnaccounted(cfg, s, step, r);
      }
    } else {
      DisabledStays(cfg, s, step);
    }
  }

  lemma InsertionUnaccounted(cfg: Config, s: State, step: Step)
    requires Inserts(s, step) && FlagsFit(s.reqs[step.r])
    ensures step.r in Next(cfg, s, step).reqs && !LeftNothing(Next(cfg, s, step).reqs[step.r])
  {
    InsertionShape(cfg, s, step);
    hide Next, Incr;
  }

  lemma DisabledStays(cfg: Config, s: State, step: Step)
    requires !Enabled(s, step)
    ensures Next(cfg, s, step) == s
  {
  }

  /** As long as its member is there and was unaccounted for, a request stays unaccounted for. */
  lemma StaysUnaccounted(cfg: Config, s: State, step: Step, r: Id)
    requires r in Actor(step) && r in s.reqs && !Inserts(s, step) && r in Next(cfg, s, step).leases
    requires !LeftNothing(s.reqs[r]) && (s.reqs[r].freed ==> s.reqs[r].phase.Admitted?)
    ensures r in Next(cfg, s, step).reqs && !LeftNothing(Next(cfg, s, step).reqs[r])
  {
    hide Incr, Refresh;
  }

  lemma LeaseEffect(cfg: Config, s: State, step: Step, r: Id)
    requires Tidy(s) && r in Next(cfg, s, step).leases
    ensures r in Next(cfg, s, step).reqs && !LeftNothing(Next(cfg, s, step).reqs[r])
  {
    hide Next, LeftNothing;
    if r !in Actor(step) {
      OthersUntouched(cfg, s, step, r);
      OthersNotInserted(cfg, s, step, r);
    } else {
      OwnLease(cfg, s, step, r);
    }
  }

  /** A slot in hand is never clean, and only an admitted request has freed one. */
  predicate FlagsFit(q: Request) {
    (q.phase.Leaving? && q.phase.slot ==> !q.phase.clean) && (q.freed ==> q.phase.Admitted?)
  }

  lemma InsertionFlags(cfg: Config, s: State, step: Step)
    requires Inserts(s, step) && FlagsFit(s.reqs[step.r])
    ensures FlagsFit(Next(cfg, s, step).reqs[step.r])
  {
    InsertionShape(cfg, s, step);
    hide Next, Incr;
  }

  lemma EnteringFlags(cfg: Config, s: State, step: Step, r: Id)
    requires r in Actor(step) && (r in s.reqs ==> FlagsFit(s.reqs[r])) && r in Next(cfg, s, step).reqs && Entering(step)
             && !Inserts(s, step)
    ensures FlagsFit(Next(cfg, s, step).reqs[r])
  {
    hide Next, Enabled, Inserts, Entering;
    if Enabled(s, step) { EnteringShape(cfg, s, step, r); } else { DisabledStays(cfg, s, step); }
  }

  lemma HoldingFlags(cfg: Config, s: State, step: Step, r: Id)
    requires r in Actor(step) && (r in s.reqs ==> FlagsFit(s.reqs[r])) && r in Next(cfg, s, step).reqs
             && !Entering(step) && !Inserts(s, step)
    ensures FlagsFit(Next(cfg, s, step).reqs[r])
  {
    hide Purge, Incr, Refresh, Decr, TryRemove, LeftNothing;
  }

  lemma FlagEffect(cfg: Config, s: State, step: Step, r: Id)
    requires Tidy(s) && r in Next(cfg, s, step).reqs
    ensures FlagsFit(Next(cfg, s, step).reqs[r])
  {
    hide Next;
    if r !in Actor(step) {
      OthersUntouched(cfg, s, step, r);
    } else if Inserts(s, step) {
      InsertionFlags(cfg, s, step);
    } else if Entering(step) {
      EnteringFlags(cfg, s, step, r);
    } else {
      HoldingFlags(cfg, s, step, r);
    }
  }

  /**
    Clean exits: a request that ended without admission and whose last release was answered, or that
    released its slot with an answer, has no lease in the store.
   */
  lemma {:induction false} CleanExits(cfg: Config, steps: seq<Step>)
    ensures Tidy(Run(cfg, steps))
  {
    if steps != [] {
      var s, last := Run(cfg, steps[..|steps| - 1]), steps[|steps| - 1];
      CleanExits(cfg, steps[..|steps| - 1]);
      hide Next, LeftNothing;
      var s' := Next(cfg, s, last);
      forall r | r in s'.leases ensures r in s'.reqs && !LeftNothing(s'.reqs[r]) {
        LeaseEffect(cfg, s, last, r);
      }
      forall r | r in s'.reqs
        ensures FlagsFit(s'.reqs[r])
      {
        FlagEffect(cfg, s, last, r);
      }
    }
  }

  // ---------------------------------------------------------------------------------------------
  // Release
  // ---------------------------------------------------------------------------------------------

  /** Some end event (close, finish, error, abort, lifetime limit) reached the admitted request. */
  predicate Ended(cfg: Config, steps: seq<Step>, r: Id) {
    steps != [] &&
    (Ended(cfg, steps[..|steps| - 1], r) ||
     (steps[|steps| - 1] == EndEvent(r) && Enabled(Run(cfg, steps[..|steps| - 1]), EndEvent(r))))
  }

  /** The release function runs at the first end event and at no other. */
  ghost predicate ReleaseMoves(s: State, s': State, ends: bool, r: Id) {
    && (r in s.reqs ==> r in s'.reqs)
    && (r in s'.reqs && r !in s.reqs ==> s'.reqs[r].decrs == 0 && !s'.reqs[r].released)
    && (r in s.reqs ==>
          && s'.reqs[r].released == (s.reqs[r].released || ends)
          && s'.reqs[r].decrs == s.reqs[r].decrs + (if ends && !s.reqs[r].released then 1 else 0)
          && (ends || s.reqs[r].phase.Admitted? ==> s'.reqs[r].phase.Admitted?))
  }

  lemma ReleaseOwn(cfg: Config, s: State, step: Step, r: Id)
    requires r in Actor(step) && (Entering(step) || Inserts(s, step))
    ensures ReleaseMoves(s, Next(cfg, s, step), false, r)
  {
    hide Next, Enabled, Incr;
    if Inserts(s, step) {
      InsertionShape(cfg, s, step);
    } else if Enabled(s, step) {
      EnteringShape(cfg, s, step, r);
    } else {
      DisabledStays(cfg, s, step);
    }
  }

  lemma ReleaseLater(cfg: Config, s: State, step: Step, r: Id)
    requires r in Actor(step) && !Entering(step) && !Inserts(s, step)
    ensures ReleaseMoves(s, Next(cfg, s, step), step == EndEvent(r) && Enabled(s, step), r)
  {
    hide Purge, Incr, Refresh, Decr, TryRemove;
  }

  lemma ReleaseEffect(cfg: Config, s: State, step: Step, r: Id)
    ensures ReleaseMoves(s, Next(cfg, s, step), step == EndEvent(r) && Enabled(s, step), r)
  {
    hide Next, Enabled;
    if r !in Actor(step) {
      OthersUntouched(cfg, s, step, r);
    } else if Entering(step) || Inserts(s, step) {
      ReleaseOwn(cfg, s, step, r);
    } else {
      ReleaseLater(cfg, s, step, r);
    }
  }

  /** Whatever events arrive, in whatever order and number, the release call is made exactly once. */
  lemma {:induction false} ReleasesExactlyOnce(cfg: Config, steps: seq<Step>, r: Id)
    ensures var s := Run(cfg, steps);
            r in s.reqs ==>
              && s.reqs[r].decrs == (if Ended(cfg, steps, r) then 1 else 0)
              && s.reqs[r].released == Ended(cfg, steps, r)
              && (s.reqs[r].released ==> s.reqs[r].phase.Admitted?)
    ensures r !in Run(cfg, steps).reqs ==> !Ended(cfg, steps, r)
  {
    if steps != [] {
      var before, last := steps[..|steps| - 1], steps[|steps| - 1];
      ReleasesExactlyOnce(cfg, before, r);
      ReleaseEffect(cfg, Run(cfg, before), last, r);
      hide Next;
    }
  }
}
