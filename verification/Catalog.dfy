/**
  Recording a model discovery on an account: an optimistic transaction (watch, read, commit if
  untouched) that must act like the single atomic script used for the other account types.
 */
module Catalog {
  import opened Options

  type Text = seq<char>

  /** What a successful discovery found. */
  datatype Found = Found(models: seq<Text>, signature: Text, complete: bool)

  datatype Discovery = Discovery(attemptedAt: int, error: Text, found: Option<Found>)

  /** The stored catalog; `good` is the last successful discovery and when it was made. */
  datatype Catalog = Catalog(attemptedAt: Option<int>, error: Text, good: Option<(Found, int)>)

  /** The rest of the account is opaque here. */
  datatype Account = Account(fields: map<Text, Text>, catalog: Option<Catalog>)

  const NO_CATALOG := Catalog(None, "", None)

  function Current(a: Account): Catalog { a.catalog.GetOr(NO_CATALOG) }

  predicate Newer(c: Catalog, d: Discovery) {
    c.attemptedAt.Some? && c.attemptedAt.value > d.attemptedAt
  }

  function Updated(c: Catalog, d: Discovery): Catalog {
    Catalog(Some(d.attemptedAt), d.error, if d.found.Some? then Some((d.found.value, d.attemptedAt)) else c.good)
  }

  datatype Reply = Missing | Kept(catalog: Catalog) | Committed(catalog: Catalog) | Exhausted

  /** The atomic script: one indivisible read, decision and write. */
  function Record(stored: Option<Account>, d: Discovery): (Option<Account>, Reply) {
    match stored
    case None => (None, Missing)
    case Some(a) =>
      if Newer(Current(a), d) then (stored, Kept(Current(a)))
      else (Some(a.(catalog := Some(Updated(Current(a), d)))), Committed(Updated(Current(a), d)))
  }

  const MAX_ATTEMPTS: nat := 5

  // ---------------------------------------------------------------------------------------------
  // Concurrent recorders and other writers
  // ---------------------------------------------------------------------------------------------

  type Client = nat

  /** `failed` counts lost commits; `since` is the key's version when the client began. */
  datatype Phase =
    | Ready
    | Watching(version: nat)
    | Holding(version: nat, seen: Account)
    | Finished(reply: Reply)

  datatype Recorder = Recorder(discovery: Discovery, phase: Phase, failed: nat, since: nat)

  /** Writes that took effect, oldest first: other writers' values and recorded discoveries. */
  datatype Write = Other(value: Option<Account>) | Recorded(discovery: Discovery)

  /** `version` counts the writes to the watched key. */
  datatype State = State(stored: Option<Account>, version: nat, recorders: map<Client, Recorder>, history: seq<Write>)

  datatype Step =
    | Begin(c: Client, discovery: Discovery)
    | Watch(c: Client)
    | Read(c: Client)
    | Commit(c: Client)
    | WriteOther(value: Option<Account>)

  function SetPhase(s: State, c: Client, phase: Phase): State
    requires c in s.recorders
  {
    s.(recorders := s.recorders[c := s.recorders[c].(phase := phase)])
  }

  function Next(s: State, step: Step): State {
    match step
    case Begin(c, discovery) =>
      if c in s.recorders then s else s.(recorders := s.recorders[c := Recorder(discovery, Ready, 0, s.version)])
    case Watch(c) =>
      if c in s.recorders && s.recorders[c].phase.Ready? then SetPhase(s, c, Watching(s.version)) else s
    case Read(c) =>
      if c in s.recorders && s.recorders[c].phase.Watching? then
        match s.stored
        case None => SetPhase(s, c, Finished(Missing))
        case Some(a) =>
          if Newer(Current(a), s.recorders[c].discovery) then SetPhase(s, c, Finished(Kept(Current(a))))
          else SetPhase(s, c, Holding(s.recorders[c].phase.version, a))
      else s
    case Commit(c) => if c in s.recorders && s.recorders[c].phase.Holding? then CommitStep(s, c) else s
    case WriteOther(value) => s.(stored := value, version := s.version + 1, history := s.history + [Other(value)])
  }

  /** The transaction goes through exactly when the key was not written since it was watched. */
  function CommitStep(s: State, c: Client): State
    requires c in s.recorders && s.recorders[c].phase.Holding?
  {
    var rec := s.recorders[c];
    if s.version == rec.phase.version then
      var next := Updated(Current(rec.phase.seen), rec.discovery);
      SetPhase(s.(stored := Some(rec.phase.seen.(catalog := Some(next))), version := s.version + 1,
                  history := s.history + [Recorded(rec.discovery)]),
               c, Finished(Committed(next)))
    else
      var failed := rec.failed + 1;
      var phase := if failed >= MAX_ATTEMPTS then Finished(Exhausted) else Ready;
      s.(recorders := s.recorders[c := rec.(failed := failed, phase := phase)])
  }

  function Run(start: Option<Account>, steps: seq<Step>): State {
    if steps == [] then State(start, 0, map[], []) else Next(Run(start, steps[..|steps| - 1]), steps[|steps| - 1])
  }

  function Apply(stored: Option<Account>, w: Write): Option<Account> {
    match w
    case Other(value) => value
    case Recorded(discovery) => Record(stored, discovery).0
  }

  /** The same writes, each applied atomically one after the other. */
  function Replay(start: Option<Account>, history: seq<Write>): Option<Account> {
    if history == [] then start
    else Apply(Replay(start, history[..|history| - 1]), history[|history| - 1])
  }

  /** What holds of one recorder, given the stored value and the key's version. */
  predicate RecorderOk(stored: Option<Account>, version: nat, r: Recorder) {
    && r.since + r.failed <= version
    && (match r.phase
        case Ready => r.failed < MAX_ATTEMPTS
        case Watching(v) => r.failed < MAX_ATTEMPTS && r.since + r.failed <= v <= version
        case Holding(v, seen) =>
          && r.failed < MAX_ATTEMPTS && r.since + r.failed <= v <= version
          && (v == version ==> stored == Some(seen) && !Newer(Current(seen), r.discovery))
        case Finished(reply) => reply == Exhausted ==> r.failed == MAX_ATTEMPTS)
  }

  ghost predicate Inv(start: Option<Account>, s: State) {
    && s.stored == Replay(start, s.history) && s.version == |s.history|
    && forall c :: c in s.recorders ==> RecorderOk(s.stored, s.version, s.recorders[c])
  }

  /** A commit that goes through is the atomic script applied to the value current at that moment. */
  lemma CommitIsAtomic(start: Option<Account>, s: State, c: Client)
    requires Inv(start, s) && c in s.recorders && s.recorders[c].phase.Holding?
             && s.recorders[c].phase.version == s.version
    ensures var (after, reply) := Record(s.stored, s.recorders[c].discovery);
            Next(s, Commit(c)).stored == after && Next(s, Commit(c)).recorders[c].phase == Finished(reply)
    ensures s.stored.Some? && Next(s, Commit(c)).stored.Some?
            && Next(s, Commit(c)).stored.value.fields == s.stored.value.fields
  {
  }

  lemma ReplayAppend(start: Option<Account>, history: seq<Write>, w: Write)
    ensures Replay(start, history + [w]) == Apply(Replay(start, history), w)
  {
    assert (history + [w])[..|history|] == history;
  }

  lemma CommitInv(start: Option<Account>, s: State, c: Client)
    requires Inv(start, s) && c in s.recorders && s.recorders[c].phase.Holding?
    ensures Inv(start, Next(s, Commit(c)))
  {
    hide Updated, Replay, Record, RecorderOk;
    var s' := Next(s, Commit(c));
    if s.recorders[c].phase.version == s.version {
      ReplayAppend(start, s.history, Recorded(s.recorders[c].discovery));
      CommitIsAtomic(start, s, c);
    }
    assert s'.stored == Replay(start, s'.history) && s'.version == |s'.history|;
    forall x | x in s'.recorders ensures RecorderOk(s'.stored, s'.version, s'.recorders[x]) {
      if x == c { OwnCommit(s, c); } else { OthersCommit(s, c, x); }
    }
  }

  lemma OwnCommit(s: State, c: Client)
    requires c in s.recorders && s.recorders[c].phase.Holding? && RecorderOk(s.stored, s.version, s.recorders[c])
    ensures var s' := Next(s, Commit(c)); RecorderOk(s'.stored, s'.version, s'.recorders[c])
  {
    hide Updated;
  }

  /** A write that goes through makes every other recorder's view stale. */
  lemma OthersCommit(s: State, c: Client, x: Client)
    requires c in s.recorders && s.recorders[c].phase.Holding? && x in s.recorders && x != c
    requires RecorderOk(s.stored, s.version, s.recorders[x])
    ensures var s' := Next(s, Commit(c));
            x in s'.recorders && RecorderOk(s'.stored, s'.version, s'.recorders[x])
  {
    hide Updated;
  }

  lemma OtherInv(start: Option<Account>, s: State, step: Step)
    requires Inv(start, s) && !step.Commit?
    ensures Inv(start, Next(s, step))
  {
    if step.WriteOther? { ReplayAppend(start, s.history, Other(step.value)); }
    hide Replay, Record, Updated;
  }

  lemma {:induction false} RunInv(start: Option<Account>, steps: seq<Step>)
    ensures Inv(start, Run(start, steps))
  {
    if steps != [] {
      var before, last := steps[..|steps| - 1], steps[|steps| - 1];
      RunInv(start, before);
      var s := Run(start, before);
      hide Inv;
      if last.Commit? {
        if last.c in s.recorders && s.recorders[last.c].phase.Holding? { CommitInv(start, s, last.c); }
      } else {
        OtherInv(start, s, last);
      }
    }
  }

  /**
    The optimistic path refines the atomic script: after every interleaving of any number of recorders
    and other writers the stored account is what the same writes give when each is applied atomically.
    A recorder gives up only after five of its commits each lost to another write.
   */
  lemma OptimisticRefinesAtomic(start: Option<Account>, steps: seq<Step>, c: Client)
    ensures var s := Run(start, steps);
            && s.stored == Replay(start, s.history)
            && (c in s.recorders && s.recorders[c].phase == Finished(Exhausted) ==>
                  s.version >= s.recorders[c].since + 5)
  {
    RunInv(start, steps);
  }

  /** At this moment, the recorder having begun, the atomic script would give it this reply. */
  ghost predicate RepliesAt(start: Option<Account>, steps: seq<Step>, k: nat, c: Client, reply: Reply) {
    && k <= |steps|
    && var s := Run(start, steps[..k]);
       c in s.recorders && Record(s.stored, s.recorders[c].discovery).1 == reply
  }

  lemma RunNext(start: Option<Account>, steps: seq<Step>, step: Step)
    ensures Run(start, steps + [step]) == Next(Run(start, steps), step)
  {
    assert (steps + [step])[..|steps|] == steps;
  }

  /** A recorder that finishes at this step gets the script's reply to the value it finds. */
  lemma FinishesNow(start: Option<Account>, s: State, step: Step, c: Client)
    requires Inv(start, s) && c in Next(s, step).recorders && Next(s, step).recorders[c].phase.Finished?
    ensures c in s.recorders && s.recorders[c].discovery == Next(s, step).recorders[c].discovery
    ensures var reply := Next(s, step).recorders[c].phase.reply;
            s.recorders[c].phase == Finished(reply) || reply.Exhausted?
            || reply == Record(s.stored, s.recorders[c].discovery).1
  {
    hide Replay, Updated;
    assert c in s.recorders ==> RecorderOk(s.stored, s.version, s.recorders[c]);
  }

  /** Every reply but giving up is what the atomic script would have replied at some moment of the call. */
  lemma {:induction false} RepliesLinearize(start: Option<Account>, steps: seq<Step>, c: Client)
    requires var s := Run(start, steps);
             c in s.recorders && s.recorders[c].phase.Finished? && !s.recorders[c].phase.reply.Exhausted?
    ensures exists k: nat :: RepliesAt(start, steps, k, c, Run(start, steps).recorders[c].phase.reply)
  {
    hide Next, Record, RecorderOk;
    var before, last := steps[..|steps| - 1], steps[|steps| - 1];
    var s := Run(start, before);
    assert steps == before + [last];
    RunNext(start, before, last);
    RunInv(start, before);
    FinishesNow(start, s, last, c);
    var r := Run(start, steps).recorders[c];
    if s.recorders[c].phase == r.phase {
      RepliesLinearize(start, before, c);
      var k: nat :| RepliesAt(start, before, k, c, r.phase.reply);
      assert before[..k] == steps[..k];
      assert RepliesAt(start, steps, k, c, r.phase.reply);
    } else {
      assert steps[..|before|] == before;
      assert RepliesAt(start, steps, |before|, c, r.phase.reply);
    }
  }

  // ---------------------------------------------------------------------------------------------
  // The catalog over time
  // ---------------------------------------------------------------------------------------------

  /** Other writers leave the catalog alone. */
  predicate CatalogKept(stored: Option<Account>, step: Step) {
    step.WriteOther? ==>
      stored.Some? && step.value.Some? && step.value.value.catalog == stored.value.catalog
  }

  predicate CatalogOwned(start: Option<Account>, steps: seq<Step>) {
    steps == [] ||
    (CatalogOwned(start, steps[..|steps| - 1])
        && CatalogKept(Run(start, steps[..|steps| - 1]).stored, steps[|steps| - 1]))
  }

  predicate NotAfter(a: Option<int>, b: Option<int>) {
    a.None? || (b.Some? && a.value <= b.value)
  }

  /** The stored time never goes back, and a good discovery is never lost. */
  predicate NotBehind(a: Catalog, b: Catalog) {
    NotAfter(a.attemptedAt, b.attemptedAt) && (a.good.Some? ==> b.good.Some?)
  }

  /** As long as only recorders write the catalog, the stored attempt time never decreases. */
  lemma {:induction false} AttemptTimeGrows(start: Option<Account>, steps: seq<Step>, k: nat)
    requires CatalogOwned(start, steps) && k <= |steps| && start.Some?
    ensures Run(start, steps).stored.Some? && Run(start, steps[..k]).stored.Some?
    ensures NotBehind(Current(Run(start, steps[..k]).stored.value), Current(Run(start, steps).stored.value))
    decreases |steps|
  {
    if k == |steps| {
      assert steps[..k] == steps;
      if steps != [] { AttemptTimeGrows(start, steps[..|steps| - 1], |steps| - 1); AttemptStep(start, steps); }
    } else {
      var before := steps[..|steps| - 1];
      assert before[..k] == steps[..k];
      AttemptTimeGrows(start, before, k);
      AttemptStep(start, steps);
    }
  }

  lemma AttemptStep(start: Option<Account>, steps: seq<Step>)
    requires steps != [] && CatalogOwned(start, steps) && Run(start, steps[..|steps| - 1]).stored.Some?
    ensures Run(start, steps).stored.Some?
    ensures NotBehind(Current(Run(start, steps[..|steps| - 1]).stored.value), Current(Run(start, steps).stored.value))
  {
    var before, last := steps[..|steps| - 1], steps[|steps| - 1];
    var s := Run(start, before);
    RunInv(start, before);
    if last.Commit? && last.c in s.recorders && s.recorders[last.c].phase.Holding?
        && s.recorders[last.c].phase.version == s.version {
      CommitIsAtomic(start, s, last.c);
    }
  }

  /** The latest attempt: the stored one, or any that is not older. */
  function LatestAttempt(start: Option<int>, history: seq<Write>): Option<int> {
    if history == [] then start
    else
      var before, w := LatestAttempt(start, history[..|history| - 1]), history[|history| - 1];
      if w.Recorded? && NotAfter(before, Some(w.discovery.attemptedAt)) then Some(w.discovery.attemptedAt) else before
  }

  /** The models and date of the latest discovery that found some and was not older than the attempts before it. */
  function LatestGood(start: Catalog, history: seq<Write>): Option<(Found, int)> {
    if history == [] then start.good
    else
      var init, w := history[..|history| - 1], history[|history| - 1];
      if w.Recorded? && w.discovery.found.Some?
         && NotAfter(LatestAttempt(start.attemptedAt, init), Some(w.discovery.attemptedAt))
      then Some((w.discovery.found.value, w.discovery.attemptedAt))
      else LatestGood(start, init)
  }

  /** The error of the latest attempt. */
  function LatestError(start: Catalog, history: seq<Write>): Text {
    if history == [] then start.error
    else
      var init, w := history[..|history| - 1], history[|history| - 1];
      if w.Recorded? && NotAfter(LatestAttempt(start.attemptedAt, init), Some(w.discovery.attemptedAt))
      then w.discovery.error
      else LatestError(start, init)
  }

  /** No other writer's value changes the catalog that it finds. */
  predicate KeepsCatalog(start: Option<Account>, history: seq<Write>) {
    history == [] ||
    (var before, w := history[..|history| - 1], history[|history| - 1];
     && KeepsCatalog(start, before)
     && (w.Other? ==>
           && Replay(start, before).Some? && w.value.Some?
           && w.value.value.catalog == Replay(start, before).value.catalog))
  }

  lemma {:induction false} ReplayedCatalog(start: Option<Account>, history: seq<Write>)
    requires start.Some? && KeepsCatalog(start, history)
    ensures Replay(start, history).Some?
    ensures var c := Current(Replay(start, history).value);
            && c.good == LatestGood(Current(start.value), history)
            && c.attemptedAt == LatestAttempt(Current(start.value).attemptedAt, history)
            && c.error == LatestError(Current(start.value), history)
  {
    if history != [] { ReplayedCatalog(start, history[..|history| - 1]); }
  }

  lemma {:induction false} OwnedHistory(start: Option<Account>, steps: seq<Step>)
    requires CatalogOwned(start, steps)
    ensures KeepsCatalog(start, Run(start, steps).history)
  {
    if steps != [] {
      var before, last := steps[..|steps| - 1], steps[|steps| - 1];
      var s := Run(start, before);
      OwnedHistory(start, before);
      RunInv(start, before);
      hide Replay, Updated, Record;
      assert forall w: Write :: (s.history + [w])[..|s.history|] == s.history;
    }
  }

  /**
    Whatever the interleaving, as long as only recorders write the catalog: the stored models and their date
    are those of the latest recorded discovery that found models and was not older than the attempt stored
    before it, or those from the start; discoveries without models leave them alone. The stored time and error
    are those of the latest attempt.
   */
  lemma LastGoodKept(start: Option<Account>, steps: seq<Step>)
    requires start.Some? && CatalogOwned(start, steps)
    ensures var s := Run(start, steps);
            && s.stored.Some?
            && Current(s.stored.value).good == LatestGood(Current(start.value), s.history)
            && Current(s.stored.value).attemptedAt == LatestAttempt(Current(start.value).attemptedAt, s.history)
            && Current(s.stored.value).error == LatestError(Current(start.value), s.history)
  {
    RunInv(start, steps);
    OwnedHistory(start, steps);
    ReplayedCatalog(start, Run(start, steps).history);
    hide Run, Replay, LatestGood, LatestAttempt, LatestError, CatalogOwned;
  }

  // ---------------------------------------------------------------------------------------------
  // The retry loop
  // ---------------------------------------------------------------------------------------------

  class AccountStore {
    var stored: Option<Account>
    var version: nat

    constructor (stored: Option<Account>)
      ensures this.stored == stored
    {
      this.stored, version := stored, 0;
    }

    method Write(value: Option<Account>)
      modifies this
      ensures stored == value && version == old(version) + 1
    {
      stored, version := value, version + 1;
    }

    method Exec(watched: nat, value: Account) returns (done: bool)
      modifies this
      ensures done == (old(version) == watched)
      ensures stored == if done then Some(value) else old(stored)
      ensures version == if done then old(version) + 1 else old(version)
    {
      if version != watched { return false; }
      stored, version := Some(value), version + 1;
      done := true;
    }
  }

  /** Other writers' writes during one attempt: before the read, and between read and commit. */
  datatype Disturbance = Disturbance(beforeRead: Option<Option<Account>>, beforeCommit: Option<Option<Account>>)

  predicate Quiet(d: Disturbance) { d.beforeRead.None? && d.beforeCommit.None? }

  /** The stored value after the disturbances of the first `k` attempts. */
  function Disturbed(stored: Option<Account>, turns: nat -> Disturbance, k: nat): Option<Account> {
    if k == 0 then stored
    else turns(k - 1).beforeCommit.GetOr(turns(k - 1).beforeRead.GetOr(Disturbed(stored, turns, k - 1)))
  }

  method RecordAccountModelCatalog(store: AccountStore, result: Discovery, turns: nat -> Disturbance)
    returns (reply: Reply, ghost attempts: nat)
    modifies store
    ensures attempts <= 5 && (reply.Exhausted? ==> attempts == 5)
    ensures forall k :: 0 <= k < attempts ==> !Quiet(turns(k))
    ensures reply.Committed? ==> (store.stored, reply) == Record(Disturbed(old(store.stored), turns, attempts), result)
    ensures reply.Missing? || reply.Kept? ==>
              store.stored == turns(attempts).beforeRead.GetOr(Disturbed(old(store.stored), turns, attempts))
              && (store.stored, reply) == Record(store.stored, result)
    ensures reply.Exhausted? ==> store.stored == Disturbed(old(store.stored), turns, MAX_ATTEMPTS)
  {
    attempts := 0;
    var attempt := 0;
    while attempt < MAX_ATTEMPTS
      invariant 0 <= attempt == attempts <= MAX_ATTEMPTS
      invariant forall k :: 0 <= k < attempt ==> !Quiet(turns(k))
      invariant store.stored == Disturbed(old(store.stored), turns, attempt)
    {
      var watched := store.version;
      var turn := turns(attempt);
      if turn.beforeRead.Some? { store.Write(turn.beforeRead.value); }
      var raw := store.stored;
      if raw.None? { return Missing, attempts; }
      var account := raw.value;
      var current := account.catalog.GetOr(NO_CATALOG);
      if current.attemptedAt.Some? && current.attemptedAt.value > result.attemptedAt {
        return Kept(current), attempts;
      }
      var next := current.(attemptedAt := Some(result.attemptedAt), error := result.error);
      if result.found.Some? {
        next := next.(good := Some((result.found.value, result.attemptedAt)));
      }
      account := account.(catalog := Some(next));
      if turn.beforeCommit.Some? { store.Write(turn.beforeCommit.value); }
      var done := store.Exec(watched, account);
      if done { return Committed(next), attempts; }
      attempt := attempt + 1;
      attempts := attempts + 1;
    }
    reply := Exhausted;
  }
}
