/**
  Exactly-once billing: a deduplicating script adds a charge to the totals, and each caller retries it
  up to three times although an answer may be lost, or a request that seemed to fail may still arrive.
 */
module Billing {
  import opened Options

  type DedupId = nat
  type Owner = nat

  /** One call's charge: the business id it is deduplicated by and the call's own random mark. */
  datatype Charge = Charge(dedup: DedupId, owner: Owner, rated: real, actual: real)

  /** The marks and totals in the store; `applied` is the history of charges that were added. */
  datatype Ledger = Ledger(marks: map<DedupId, Owner>, total: real, realTotal: real, applied: seq<Charge>)

  const EMPTY := Ledger(map[], 0.0, 0.0, [])

  const DUPLICATE: nat := 0
  const APPLIED: nat := 1
  const ALREADY_OURS: nat := 2

  const MAX_ATTEMPTS: nat := 3

  /** The answer of the script. */
  function Code(l: Ledger, c: Charge): nat {
    if c.dedup !in l.marks then APPLIED
    else if l.marks[c.dedup] == c.owner then ALREADY_OURS
    else DUPLICATE
  }

  /** The effect of the script, atomically. */
  function Settle(l: Ledger, c: Charge): Ledger {
    if c.dedup in l.marks then l
    else Ledger(l.marks[c.dedup := c.owner], l.total + c.rated, l.realTotal + c.actual, l.applied + [c])
  }

  function RatedSum(applied: seq<Charge>): real {
    if applied == [] then 0.0 else RatedSum(applied[..|applied| - 1]) + applied[|applied| - 1].rated
  }

  function ActualSum(applied: seq<Charge>): real {
    if applied == [] then 0.0 else ActualSum(applied[..|applied| - 1]) + applied[|applied| - 1].actual
  }

  /** The ids settled by a history, with the call that settled each. */
  function MarksOf(applied: seq<Charge>): map<DedupId, Owner> {
    if applied == [] then map[]
    else MarksOf(applied[..|applied| - 1])[applied[|applied| - 1].dedup := applied[|applied| - 1].owner]
  }

  predicate Distinct(applied: seq<Charge>) {
    applied == [] ||
    (Distinct(applied[..|applied| - 1]) && applied[|applied| - 1].dedup !in MarksOf(applied[..|applied| - 1]))
  }

  /** The totals are the sums over the settled ids, and each id was settled once, by its mark's owner. */
  predicate Balanced(l: Ledger) {
    && l.total == RatedSum(l.applied) && l.realTotal == ActualSum(l.applied)
    && l.marks == MarksOf(l.applied) && Distinct(l.applied)
  }

  function Count(applied: seq<Charge>, owner: Owner): nat {
    if applied == [] then 0
    else Count(applied[..|applied| - 1], owner) + (if applied[|applied| - 1].owner == owner then 1 else 0)
  }

  lemma SettleBalanced(l: Ledger, c: Charge)
    requires Balanced(l)
    ensures Balanced(Settle(l, c))
  {
    if c.dedup !in l.marks {
      assert Settle(l, c).applied[..|l.applied|] == l.applied;
    }
  }

  lemma CountSettled(l: Ledger, c: Charge, owner: Owner)
    ensures Count(Settle(l, c).applied, owner)
         == Count(l.applied, owner) + (if c.dedup !in l.marks && c.owner == owner then 1 else 0)
  {
    if c.dedup !in l.marks {
      assert Settle(l, c).applied[..|l.applied|] == l.applied;
    }
  }

  // ---------------------------------------------------------------------------------------------
  // Concurrent calls
  // ---------------------------------------------------------------------------------------------

  datatype Outcome = Running | ReturnedTrue | ReturnedFalse | Threw

  /**
    A call to the increment: its current attempt, the attempts whose requests are still travelling (an
    attempt given up by the client may arrive later), and the script's answer to the current one.
   */
  datatype Call = Call(charge: Charge, attempt: nat, travelling: set<nat>, answer: Option<nat>, outcome: Outcome)

  /** Calls are named by their random owner marks. */
  datatype State = State(ledger: Ledger, calls: map<Owner, Call>)

  const INITIAL := State(EMPTY, map[])

  datatype Step =
    | Start(charge: Charge)
    | Arrive(c: Owner, attempt: nat)   // a travelling request reaches the store and runs
    | Answer(c: Owner)                 // the client receives the answer to its current attempt
    | Fail(c: Owner)                   // the client sees its current attempt fail, whatever became of it

  function Next(s: State, step: Step): State {
    match step
    case Start(charge) =>
      if charge.owner in s.calls then s
      else s.(calls := s.calls[charge.owner := Call(charge, 1, {1}, None, Running)])
    case Arrive(c, attempt) =>
      if c !in s.calls || attempt !in s.calls[c].travelling then s
      else
        var call := s.calls[c];
        var answer := if attempt == call.attempt then Some(Code(s.ledger, call.charge)) else call.answer;
        State(Settle(s.ledger, call.charge),
              s.calls[c := call.(travelling := call.travelling - {attempt}, answer := answer)])
    case Answer(c) =>
      if c !in s.calls || s.calls[c].outcome != Running || s.calls[c].answer.None? then s
      else
        var call := s.calls[c];
        var returned := if call.answer.value == DUPLICATE then ReturnedFalse else ReturnedTrue;
        s.(calls := s.calls[c := call.(outcome := returned)])
    case Fail(c) =>
      if c !in s.calls || s.calls[c].outcome != Running then s
      else
        var call := s.calls[c];
        s.(calls := s.calls[c :=
          if call.attempt < MAX_ATTEMPTS then
            call.(attempt := call.attempt + 1, travelling := call.travelling + {call.attempt + 1}, answer := None)
          else call.(outcome := Threw)])
  }

  function Run(steps: seq<Step>): State {
    if steps == [] then INITIAL else Next(Run(steps[..|steps| - 1]), steps[|steps| - 1])
  }

  predicate Billed(s: State, c: Owner) {
    c in s.calls && s.calls[c].charge.dedup in s.ledger.marks && s.ledger.marks[s.calls[c].charge.dedup] == c
  }

  predicate BilledElsewhere(s: State, c: Owner) {
    c in s.calls && s.calls[c].charge.dedup in s.ledger.marks && s.ledger.marks[s.calls[c].charge.dedup] != c
  }

  ghost predicate Inv(s: State) {
    && Balanced(s.ledger)
    && (forall c :: c in s.calls ==>
          s.calls[c].charge.owner == c && Count(s.ledger.applied, c) == (if Billed(s, c) then 1 else 0))
    && (forall d :: d in s.ledger.marks ==>
          s.ledger.marks[d] in s.calls && s.calls[s.ledger.marks[d]].charge.dedup == d)
    && (forall c :: c in s.calls && s.calls[c].answer.Some? ==>
          if s.calls[c].answer.value == DUPLICATE then BilledElsewhere(s, c) else Billed(s, c))
    && (forall c :: c in s.calls && s.calls[c].outcome == ReturnedTrue ==> Billed(s, c))
    && (forall c :: c in s.calls && s.calls[c].outcome == ReturnedFalse ==> BilledElsewhere(s, c))
  }

  lemma {:induction false} UnmarkedNotCounted(applied: seq<Charge>, owner: Owner)
    requires Distinct(applied) && forall d :: d in MarksOf(applied) ==> MarksOf(applied)[d] != owner
    ensures Count(applied, owner) == 0
  {
    if applied != [] {
      var init, last := applied[..|applied| - 1], applied[|applied| - 1];
      assert last.dedup in MarksOf(applied);
      forall d | d in MarksOf(init) ensures MarksOf(init)[d] != owner {
        assert d in MarksOf(applied);
      }
      UnmarkedNotCounted(init, owner);
    }
  }

  lemma StartInv(s: State, charge: Charge)
    requires Inv(s)
    ensures Inv(Next(s, Start(charge)))
  {
    if charge.owner !in s.calls {
      UnmarkedNotCounted(s.ledger.applied, charge.owner);
      hide Balanced, Count;
    }
  }

  lemma ArriveCounts(s: State, c: Owner, attempt: nat, x: Owner)
    requires Inv(s) && c in s.calls && attempt in s.calls[c].travelling && x in s.calls
    ensures var s' := Next(s, Arrive(c, attempt)); Count(s'.ledger.applied, x) == (if Billed(s', x) then 1 else 0)
    ensures var s' := Next(s, Arrive(c, attempt));
            (Billed(s, x) ==> Billed(s', x)) && (BilledElsewhere(s, x) ==> BilledElsewhere(s', x))
  {
    CountSettled(s.ledger, s.calls[c].charge, x);
    hide Balanced, Count;
  }

  /** The marks name started calls, and a call's charge never changes. */
  lemma ArriveMarks(s: State, c: Owner, attempt: nat)
    requires Inv(s) && c in s.calls && attempt in s.calls[c].travelling
    ensures var s' := Next(s, Arrive(c, attempt));
            && Balanced(s'.ledger) && s'.calls.Keys == s.calls.Keys
            && (forall x :: x in s.calls ==>
                  s'.calls[x].charge == s.calls[x].charge && s'.calls[x].outcome == s.calls[x].outcome)
            && (forall d :: d in s'.ledger.marks ==>
                  s'.ledger.marks[d] in s.calls && s.calls[s'.ledger.marks[d]].charge.dedup == d)
  {
    SettleBalanced(s.ledger, s.calls[c].charge);
    hide Balanced, Count;
  }

  /** An answer on its way says what the ledger says. */
  lemma ArriveAnswers(s: State, c: Owner, attempt: nat, x: Owner)
    requires Inv(s) && c in s.calls && attempt in s.calls[c].travelling && x in s.calls
    ensures var s' := Next(s, Arrive(c, attempt));
            s'.calls[x].answer.Some? ==>
              if s'.calls[x].answer.value == DUPLICATE then BilledElsewhere(s', x) else Billed(s', x)
  {
    ArriveCounts(s, c, attempt, x);
    hide Balanced, Count;
  }

  lemma ArriveInv(s: State, c: Owner, attempt: nat)
    requires Inv(s) && c in s.calls && attempt in s.calls[c].travelling
    ensures Inv(Next(s, Arrive(c, attempt)))
  {
    hide Next, Balanced, Count, Billed, BilledElsewhere;
    var s' := Next(s, Arrive(c, attempt));
    ArriveMarks(s, c, attempt);
    forall x | x in s.calls
      ensures Count(s'.ledger.applied, x) == (if Billed(s', x) then 1 else 0)
      ensures (Billed(s, x) ==> Billed(s', x)) && (BilledElsewhere(s, x) ==> BilledElsewhere(s', x))
      ensures s'.calls[x].answer.Some? ==>
                if s'.calls[x].answer.value == DUPLICATE then BilledElsewhere(s', x) else Billed(s', x)
    {
      ArriveCounts(s, c, attempt, x);
      ArriveAnswers(s, c, attempt, x);
    }
  }

  /** The client's own steps touch neither the ledger nor any charge. */
  lemma ClientInv(s: State, step: Step)
    requires Inv(s) && (step.Answer? || step.Fail?)
    ensures Inv(Next(s, step))
  {
    hide Balanced, Count;
    var s' := Next(s, step);
    assert s'.ledger == s.ledger && s'.calls.Keys == s.calls.Keys;
    forall x | x in s.calls
      ensures s'.calls[x].charge == s.calls[x].charge
      ensures s'.calls[x].answer.Some? ==> s'.calls[x].answer == s.calls[x].answer
      ensures s'.calls[x].outcome == ReturnedTrue ==> Billed(s, x)
      ensures s'.calls[x].outcome == ReturnedFalse ==> BilledElsewhere(s, x)
    {
    }
    assert forall x :: x in s.calls ==>
             Billed(s', x) == Billed(s, x) && BilledElsewhere(s', x) == BilledElsewhere(s, x);
    hide Next;
  }

  lemma {:induction false} RunInv(steps: seq<Step>)
    ensures Inv(Run(steps))
  {
    if steps != [] {
      var before, last := steps[..|steps| - 1], steps[|steps| - 1];
      RunInv(before);
      var s := Run(before);
      hide Inv;
      match last
      case Start(charge) => StartInv(s, charge);
      case Arrive(c, attempt) => if c in s.calls && attempt in s.calls[c].travelling { ArriveInv(s, c, attempt); }
      case _ => ClientInv(s, last);
    }
  }

  /**
    For every pattern of lost answers, failures and late arrivals and every interleaving of calls: the
    totals are the sums over the settled ids; a call that returned true was added exactly once, one that
    returned false not at all, because another call was for the same id, and one that threw at most once.
   */
  lemma ExactlyOnce(steps: seq<Step>, c: Owner)
    ensures var s := Run(steps);
            && s.ledger.total == RatedSum(s.ledger.applied) && s.ledger.realTotal == ActualSum(s.ledger.applied)
            && (c in s.calls ==>
                  var n := Count(s.ledger.applied, c);
                  match s.calls[c].outcome
                  case ReturnedTrue => n == 1
                  case ReturnedFalse =>
                    && n == 0
                    && exists paid <- s.ledger.applied :: paid.dedup == s.calls[c].charge.dedup && paid.owner != c
                  case Threw => n <= 1
                  case Running => n <= 1)
  {
    hide Run;
    RunInv(steps);
    if c in Run(steps).calls && Run(steps).calls[c].outcome == ReturnedFalse {
      PaidElsewhere(Run(steps), c);
    }
  }

  lemma PaidElsewhere(s: State, c: Owner)
    requires Inv(s) && c in s.calls && s.calls[c].outcome == ReturnedFalse
    ensures exists paid <- s.ledger.applied :: paid.dedup == s.calls[c].charge.dedup && paid.owner != c
  {
    hide Count, Distinct;
    MarkedIsApplied(s.ledger.applied, s.calls[c].charge.dedup);
  }

  /** A marked id was settled by the charge of its mark's owner. */
  lemma {:induction false} MarkedIsApplied(applied: seq<Charge>, d: DedupId)
    requires d in MarksOf(applied)
    ensures exists paid <- applied :: paid.dedup == d && paid.owner == MarksOf(applied)[d]
  {
    var init, last := applied[..|applied| - 1], applied[|applied| - 1];
    if last.dedup == d {
      assert last in applied;
    } else {
      MarkedIsApplied(init, d);
      var paid :| paid in init && paid.dedup == d && paid.owner == MarksOf(init)[d];
      assert paid in applied;
    }
  }

  /** A call makes at most three attempts, and throws only when the third has failed. */
  lemma {:induction false} ThrowsAfterThree(steps: seq<Step>, c: Owner)
    requires c in Run(steps).calls
    ensures var call := Run(steps).calls[c];
            1 <= call.attempt <= 3 && (call.outcome == Threw ==> call.attempt == 3)
  {
    var before, last := steps[..|steps| - 1], steps[|steps| - 1];
    if c in Run(before).calls { ThrowsAfterThree(before, c); }
    hide Settle, Code;
  }

  /** Verdicts are final: nothing that arrives later changes what a returned call was charged. */
  lemma {:induction false} VerdictsFinal(steps: seq<Step>, more: seq<Step>, c: Owner)
    requires c in Run(steps).calls && Run(steps).calls[c].outcome in {ReturnedTrue, ReturnedFalse}
    ensures c in Run(steps + more).calls && Run(steps + more).calls[c].outcome == Run(steps).calls[c].outcome
    ensures Count(Run(steps + more).ledger.applied, c) == Count(Run(steps).ledger.applied, c)
  {
    if more == [] {
      assert steps + more == steps;
    } else {
      VerdictsFinal(steps, more[..|more| - 1], c);
      assert (steps + more)[..|steps + more| - 1] == steps + more[..|more| - 1];
      ExactlyOnce(steps, c);
      ExactlyOnce(steps + more, c);
    }
  }

  // ---------------------------------------------------------------------------------------------
  // The retry loop
  // ---------------------------------------------------------------------------------------------

  /** What becomes of one attempt, as the client and the store see it. */
  datatype Fate = Answered | AnswerLost | NoEffect

  class CostStore {
    var ledger: Ledger

    constructor ()
      ensures ledger == EMPTY
    {
      ledger := EMPTY;
    }

    method Eval(c: Charge) returns (code: nat)
      modifies this
      ensures ledger == Settle(old(ledger), c) && code == Code(old(ledger), c)
    {
      if c.dedup in ledger.marks {
        return if ledger.marks[c.dedup] == c.owner then ALREADY_OURS else DUPLICATE;
      }
      ledger := Ledger(ledger.marks[c.dedup := c.owner], ledger.total + c.rated, ledger.realTotal + c.actual,
          ledger.applied + [c]);
      code := APPLIED;
    }

    /** Other callers' charges run between two attempts. */
    method Interfere(others: seq<Charge>, ghost owner: Owner)
      requires Balanced(ledger) && forall c <- others :: c.owner != owner
      modifies this
      ensures Balanced(ledger) && Count(ledger.applied, owner) == Count(old(ledger.applied), owner)
      ensures forall d :: d in old(ledger.marks) ==> d in ledger.marks && ledger.marks[d] == old(ledger.marks)[d]
      ensures forall d :: d in ledger.marks && d !in old(ledger.marks) ==> ledger.marks[d] != owner
    {
      var i := 0;
      while i < |others|
        invariant 0 <= i <= |others| && Balanced(ledger)
        invariant Count(ledger.applied, owner) == Count(old(ledger.applied), owner)
        invariant forall d :: d in old(ledger.marks) ==> d in ledger.marks && ledger.marks[d] == old(ledger.marks)[d]
        invariant forall d :: d in ledger.marks && d !in old(ledger.marks) ==> ledger.marks[d] != owner
      {
        SettleBalanced(ledger, others[i]);
        CountSettled(ledger, others[i], owner);
        var code := Eval(others[i]);
        i := i + 1;
      }
    }
  }

  /**
    One caller's loop: true when its charge was added, false when another's was, and an error exactly when none
    of three attempts was answered.
   */
  method IncrementDailyCost(store: CostStore, c: Charge, fates: nat -> Fate, others: nat -> seq<Charge>)
    returns (result: Result<bool, ()>)
    requires Balanced(store.ledger) && Count(store.ledger.applied, c.owner) == 0
    requires forall d :: d in store.ledger.marks ==> store.ledger.marks[d] != c.owner
    requires forall i: nat, x :: x in others(i) ==> x.owner != c.owner
    modifies store
    ensures Balanced(store.ledger)
    ensures result.Failure? <==> forall i: nat :: 1 <= i <= 3 ==> fates(i) != Answered
    ensures var n := Count(store.ledger.applied, c.owner);
            match result
            case Success(added) =>
              && n == (if added then 1 else 0)
              && c.dedup in store.ledger.marks && (added <==> store.ledger.marks[c.dedup] == c.owner)
            case Failure(_) => n == 0 || (n == 1 && exists i: nat :: fates(i) == AnswerLost)
  {
    hide Balanced, Count, Settle, Code, OwnOnly;
    var attempt := 1;
    NothingOwned(store.ledger, c);
    while attempt <= MAX_ATTEMPTS
      invariant 1 <= attempt <= MAX_ATTEMPTS + 1 && Balanced(store.ledger)
      invariant forall i: nat :: 1 <= i < attempt ==> fates(i) != Answered
      invariant OwnOnly(store.ledger, c)
      invariant Count(store.ledger.applied, c.owner) == 0 || exists i: nat :: fates(i) == AnswerLost
    {
      ghost var before := store.ledger;
      store.Interfere(others(attempt), c.owner);
      OwnAfterOthers(before, store.ledger, c);
      if fates(attempt) != NoEffect {
        OwnSettles(store.ledger, c);
        var code := store.Eval(c);
        if fates(attempt) == Answered {
          OwnCounted(store.ledger, c);
          return Success(code != DUPLICATE);
        }
      }
      attempt := attempt + 1;
    }
    OwnCounted(store.ledger, c);
    result := Failure(());
  }

  /** The call's owner marks no other id, and has been counted once if it marks its own. */
  ghost predicate OwnOnly(l: Ledger, c: Charge) {
    && (forall d :: d in l.marks && l.marks[d] == c.owner ==> d == c.dedup)
    && Count(l.applied, c.owner) == if c.dedup in l.marks && l.marks[c.dedup] == c.owner then 1 else 0
  }

  lemma NothingOwned(l: Ledger, c: Charge)
    requires Count(l.applied, c.owner) == 0 && forall d :: d in l.marks ==> l.marks[d] != c.owner
    ensures OwnOnly(l, c)
  {
  }

  lemma OwnAfterOthers(l: Ledger, l': Ledger, c: Charge)
    requires OwnOnly(l, c) && Count(l'.applied, c.owner) == Count(l.applied, c.owner)
    requires forall d :: d in l.marks ==> d in l'.marks && l'.marks[d] == l.marks[d]
    requires forall d :: d in l'.marks && d !in l.marks ==> l'.marks[d] != c.owner
    ensures OwnOnly(l', c)
  {
    hide Count;
  }

  lemma OwnSettles(l: Ledger, c: Charge)
    requires Balanced(l) && OwnOnly(l, c)
    ensures Balanced(Settle(l, c)) && OwnOnly(Settle(l, c), c) && c.dedup in Settle(l, c).marks
    ensures Code(l, c) != DUPLICATE <==> Settle(l, c).marks[c.dedup] == c.owner
  {
    SettleBalanced(l, c);
    CountSettled(l, c, c.owner);
    hide Balanced, Count;
  }

  lemma OwnCounted(l: Ledger, c: Charge)
    requires OwnOnly(l, c)
    ensures Count(l.applied, c.owner) == if c.dedup in l.marks && l.marks[c.dedup] == c.owner then 1 else 0
  {
  }
}
