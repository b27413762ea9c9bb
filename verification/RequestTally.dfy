/**
  What the counters mean: each is a count over the requests' own histories, and a reset only moves the
  starting point of that count.
 */
module RequestTally {
  import opened Options
  import opened RequestStats

  // ---- The history of one request, read off the log ----

  function Observations(log: seq<Event>): nat {
    if log == [] then 0
    else
      var e := log[|log| - 1];
      Observations(log[..|log| - 1]) + if e.Observed? && !IsHealthCheck(PathOf(e.url)) then 1 else 0
  }

  predicate Concerns(init: seq<Event>, e: Event, id: nat) {
    id < Observations(init) && ((e.Judged? && e.id == id) || (e.Ended? && e.id == id))
  }

  function FirstEnd(log: seq<Event>, id: nat): Option<(bool, Response)> {
    if log == [] then None
    else
      var init, e := log[..|log| - 1], log[|log| - 1];
      var rest := FirstEnd(init, id);
      if rest.None? && e.Ended? && Concerns(init, e, id) then Some((e.disconnected, e.response)) else rest
  }

  predicate AnyFinal(verdicts: seq<Verdict>) { exists v <- verdicts :: v.final }

  /** The accepted verdicts, in order: after a final one only final ones are taken. */
  function Accepted(log: seq<Event>, id: nat): seq<Verdict> {
    if log == [] then []
    else
      var init, e := log[..|log| - 1], log[|log| - 1];
      var rest := Accepted(init, id);
      if !Concerns(init, e, id) then rest
      else if e.Judged? then if AnyFinal(rest) && !e.verdict.final then rest else rest + [e.verdict]
      else if FirstEnd(init, id).None? && rest == [] && !e.disconnected
              && e.response.upstreamHeaders && !e.response.usageHandled
      then [Verdict(Some(e.response.statusCode), "", None, false)]
      else rest
  }

  /** What the latest accepted verdict that knows says about usage. */
  function LatestUsage(verdicts: seq<Verdict>): Option<bool> {
    if verdicts == [] then None
    else if verdicts[|verdicts| - 1].hasUsage.Some? then verdicts[|verdicts| - 1].hasUsage
    else LatestUsage(verdicts[..|verdicts| - 1])
  }

  function LatestOutcome(verdicts: seq<Verdict>): Option<Outcome> {
    if verdicts == [] then None else Some(OutcomeOf(verdicts[|verdicts| - 1]))
  }

  function FlagsFrom(end: Option<(bool, Response)>, verdicts: seq<Verdict>): Flags {
    Flags(end.Some?, LatestOutcome(verdicts), LatestUsage(verdicts) == Some(false), AnyFinal(verdicts))
  }

  lemma OneMore(end: Option<(bool, Response)>, verdicts: seq<Verdict>, v: Verdict)
    ensures Accepts(FlagsFrom(end, verdicts), v) ==>
              AfterVerdict(FlagsFrom(end, verdicts), v) == FlagsFrom(end, verdicts + [v])
  {
    assert (verdicts + [v])[..|verdicts|] == verdicts;
    assert AnyFinal(verdicts + [v]) <==> AnyFinal(verdicts) || v.final by {
      assert (verdicts + [v])[|verdicts|] == v;
    }
  }

  /** What an event does to the history of a request it concerns. */
  lemma HistoryMoves(init: seq<Event>, e: Event, id: nat)
    requires Concerns(init, e, id)
    ensures var f := FlagsFrom(FirstEnd(init, id), Accepted(init, id));
            var f' := FlagsFrom(FirstEnd(init + [e], id), Accepted(init + [e], id));
            f' == if e.Judged? then AfterVerdict(f, e.verdict) else AfterEnd(f, e.disconnected, e.response)
  {
    var verdicts := Accepted(init, id);
    assert (init + [e])[..|init|] == init;
    var end := FirstEnd(init + [e], id);
    if e.Judged? {
      OneMore(end, verdicts, e.verdict);
    } else {
      OneMore(end, verdicts, Fallback(e.response));
      assert verdicts == [] ==> verdicts + [Fallback(e.response)] == [Fallback(e.response)];
    }
    hide OutcomeOf, LatestUsage, Observations;
  }

  lemma HistoryStays(init: seq<Event>, e: Event, id: nat)
    requires !Concerns(init, e, id)
    ensures FirstEnd(init + [e], id) == FirstEnd(init, id) && Accepted(init + [e], id) == Accepted(init, id)
  {
    assert (init + [e])[..|init|] == init;
  }

  /** A request nobody has observed yet has no history. */
  lemma {:induction false} NoHistory(log: seq<Event>, id: nat)
    requires id >= Observations(log)
    ensures FirstEnd(log, id) == None && Accepted(log, id) == []
  {
    if log != [] {
      NoHistory(log[..|log| - 1], id);
      assert log == log[..|log| - 1] + [log[|log| - 1]];
      HistoryStays(log[..|log| - 1], log[|log| - 1], id);
    }
  }

  /** The four flags of a request say exactly what its history says. */
  lemma {:induction false} FlagsFollowHistory(log: seq<Event>)
    ensures |After(log).requests| == Observations(log)
    ensures forall id :: 0 <= id < Observations(log) ==>
              After(log).requests[id] == FlagsFrom(FirstEnd(log, id), Accepted(log, id))
  {
    if log != [] {
      var init, e := log[..|log| - 1], log[|log| - 1];
      assert log == init + [e];
      FlagsFollowHistory(init);
      forall id | 0 <= id < Observations(log)
        ensures After(log).requests[id] == FlagsFrom(FirstEnd(log, id), Accepted(log, id))
      {
        FlagStep(init, e, id);
      }
    }
  }

  lemma FlagStep(init: seq<Event>, e: Event, id: nat)
    requires |After(init).requests| == Observations(init) && id < Observations(init + [e])
    requires id < Observations(init) ==> After(init).requests[id] == FlagsFrom(FirstEnd(init, id), Accepted(init, id))
    ensures |After(init + [e]).requests| == Observations(init + [e])
    ensures After(init + [e]).requests[id] == FlagsFrom(FirstEnd(init + [e], id), Accepted(init + [e], id))
  {
    hide FirstEnd, Accepted, AfterVerdict, AfterEnd, FlagsFrom, Next, After, Observations;
    AfterOne(init, e);
    RequestsNext(init, After(init), e, id);
    if Concerns(init, e, id) {
      HistoryMoves(init, e, id);
    } else {
      HistoryStays(init, e, id);
      if id == Observations(init) {
        NoHistory(init, id);
        NoFlags();
      }
    }
  }

  lemma NoFlags()
    ensures FlagsFrom(None, []) == FRESH
  {
  }

  /** An event changes the flags of the request it concerns, or adds one with no flags. */
  lemma RequestsNext(init: seq<Event>, st: State, e: Event, id: nat)
    requires |st.requests| == Observations(init) && id < Observations(init + [e])
    ensures |Next(st, e).requests| == Observations(init + [e]) <= |st.requests| + 1
    ensures Next(st, e).requests[id] ==
            if id == |st.requests| then FRESH
            else if Concerns(init, e, id) then
              if e.Judged? then AfterVerdict(st.requests[id], e.verdict)
              else AfterEnd(st.requests[id], e.disconnected, e.response)
            else st.requests[id]
  {
    hide AfterVerdict, AfterEnd, Moved, StatsAfterEnd, PathOf, IsHealthCheck;
    assert (init + [e])[..|init|] == init;
  }

  // ---- The totals ----

  function EndShare(end: Option<(bool, Response)>): Http {
    match end
    case None => NO_HTTP
    case Some(e) => HttpShare(e.0, e.1)
  }

  function ShareOf(end: Option<(bool, Response)>, verdicts: seq<Verdict>): Stats {
    Stats(One(end.Some?), EndShare(end), RelayShare(FlagsFrom(end, verdicts)))
  }

  /** What one request contributes, from its history alone. */
  function Share(log: seq<Event>, id: nat): Stats {
    ShareOf(FirstEnd(log, id), Accepted(log, id))
  }

  function TallyTo(log: seq<Event>, n: nat): Stats {
    if n == 0 then ZERO else Add(TallyTo(log, n - 1), Share(log, n - 1))
  }

  /** The reference: the sum over the observed requests. */
  function Tally(log: seq<Event>): Stats { TallyTo(log, Observations(log)) }

  lemma AddCongruence(s: Stats, t: Stats, a: Stats, b: Stats, x: Stats)
    requires Add(s, a) == Add(t, b)
    ensures Add(Add(s, x), a) == Add(Add(t, x), b)
    ensures a == b ==> Add(Add(s, x), ZERO) == Add(Add(t, x), ZERO)
  {
  }

  lemma AddExchange(s: Stats, t: Stats, a: Stats, b: Stats)
    requires Add(s, ZERO) == Add(t, ZERO)
    ensures Add(Add(s, b), a) == Add(Add(t, a), b)
  {
  }

  /** When one request's history moves, the tally moves by the difference of its shares. */
  lemma {:induction false} OneMoves(init: seq<Event>, e: Event, id: nat, n: nat)
    requires forall k :: 0 <= k < n && k != id ==> Share(init + [e], k) == Share(init, k)
    ensures Add(TallyTo(init + [e], n), if id < n then Share(init, id) else ZERO)
         == Add(TallyTo(init, n), if id < n then Share(init + [e], id) else ZERO)
  {
    hide Share, Add;
    if n > 0 {
      OneMoves(init, e, id, n - 1);
      var t', t := TallyTo(init + [e], n - 1), TallyTo(init, n - 1);
      if n - 1 == id {
        AddExchange(t', t, Share(init, id), Share(init + [e], id));
      } else {
        AddCongruence(t', t, if id < n then Share(init, id) else ZERO,
                      if id < n then Share(init + [e], id) else ZERO, Share(init, n - 1));
      }
    }
  }

  lemma {:induction false} SameTally(init: seq<Event>, e: Event, n: nat)
    requires forall k :: 0 <= k < n ==> Share(init + [e], k) == Share(init, k)
    ensures TallyTo(init + [e], n) == TallyTo(init, n)
  {
    hide Share, Add;
    if n > 0 { SameTally(init, e, n - 1); }
  }

  lemma NewRequest(log: seq<Event>, id: nat)
    requires id >= Observations(log)
    ensures Share(log, id) == ZERO
  {
    NoHistory(log, id);
    hide FirstEnd, Accepted;
  }

  lemma RelayMoves(s: Stats, ends: int, http: Http, f: Flags, f': Flags)
    ensures Add(s.(relay := Moved(s.relay, f, f')), Stats(ends, http, RelayShare(f)))
            == Add(s, Stats(ends, http, RelayShare(f')))
  {
    hide RelayShare;
  }

  lemma FirstEndMoves(s: Stats, f: Flags, disconnected: bool, res: Response)
    requires !f.ended
    ensures var f' := AfterEnd(f, disconnected, res);
            Add(StatsAfterEnd(s, f, disconnected, res), Stats(0, NO_HTTP, RelayShare(f)))
            == Add(s, Stats(1, HttpShare(disconnected, res), RelayShare(f')))
  {
    hide RelayShare, HttpShare, AfterEnd;
  }

  lemma AfterOne(log: seq<Event>, e: Event)
    ensures After(log + [e]) == Next(After(log), e)
  {
    assert (log + [e])[..|log|] == log;
  }

  lemma NextStats(st: State, e: Event, id: nat)
    requires id < |st.requests| && (e.Judged? || e.Ended?) && e.id == id
    ensures var f := st.requests[id];
            Next(st, e).stats
            == if e.Judged? then st.stats.(relay := Moved(st.stats.relay, f, AfterVerdict(f, e.verdict)))
                                 else StatsAfterEnd(st.stats, f, e.disconnected, e.response)
  {
    hide OutcomeOf, Moved, AfterVerdict, IsHealthCheck, PathOf, StatsAfterEnd, AfterEnd;
  }

  /** The counters after an event, in terms of the shares of the request it concerns. */
  lemma StatsMove(init: seq<Event>, e: Event, id: nat)
    requires Concerns(init, e, id)
    ensures Add(After(init + [e]).stats, Share(init, id)) == Add(After(init).stats, Share(init + [e], id))
  {
    FlagsFollowHistory(init);
    AfterOne(init, e);
    NextStats(After(init), e, id);
    HistoryMoves(init, e, id);
    EndMoves(init, e, id);
    hide FirstEnd, Accepted, After, Next, Observations;
    SharesMove(FirstEnd(init, id), Accepted(init, id), FirstEnd(init + [e], id), Accepted(init + [e], id), e,
               After(init).stats);
  }

  /** The same on values: how a share moves with a verdict or an end. */
  lemma SharesMove(end: Option<(bool, Response)>, verdicts: seq<Verdict>, end': Option<(bool, Response)>,
                   verdicts': seq<Verdict>, e: Event, s: Stats)
    requires e.Judged? || e.Ended?
    requires end' == if e.Ended? && end.None? then Some((e.disconnected, e.response)) else end
    requires var f := FlagsFrom(end, verdicts);
             FlagsFrom(end', verdicts')
             == if e.Judged? then AfterVerdict(f, e.verdict) else AfterEnd(f, e.disconnected, e.response)
    ensures var f := FlagsFrom(end, verdicts);
            var s' := if e.Judged? then s.(relay := Moved(s.relay, f, AfterVerdict(f, e.verdict)))
                      else StatsAfterEnd(s, f, e.disconnected, e.response);
            Add(s', ShareOf(end, verdicts)) == Add(s, ShareOf(end', verdicts'))
  {
    var f, f' := FlagsFrom(end, verdicts), FlagsFrom(end', verdicts');
    assert f.ended == end.Some?;
    hide FlagsFrom;
    if e.Judged? {
      hide AfterVerdict;
      RelayMoves(s, One(end.Some?), EndShare(end), f, f');
    } else if end.None? {
      FirstEndMoves(s, f, e.disconnected, e.response);
      hide StatsAfterEnd, AfterEnd, HttpShare, RelayShare, Add;
    }
  }

  lemma EndMoves(init: seq<Event>, e: Event, id: nat)
    requires Concerns(init, e, id)
    ensures FirstEnd(init + [e], id)
         == if e.Ended? && FirstEnd(init, id).None? then Some((e.disconnected, e.response)) else FirstEnd(init, id)
  {
    assert (init + [e])[..|init|] == init;
  }

  /** The log up to and including the latest reset. */
  function UpToReset(log: seq<Event>): seq<Event> {
    if log == [] || log[|log| - 1].Reset? then log else UpToReset(log[..|log| - 1])
  }

  lemma Cancel(s: Stats, s': Stats, t: Stats, t': Stats, base: Stats, a: Stats, a': Stats)
    requires Add(s, base) == t && Add(s', a) == Add(s, a') && Add(t', a) == Add(t, a')
    ensures Add(s', base) == t'
  {
  }

  lemma AddZero(s: Stats)
    ensures Add(ZERO, s) == s == Add(s, ZERO)
  {
  }

  /**
    At every moment of every run, with any number of requests and resets, the counters are the sum of what
    the histories of all requests contribute now, less what they contributed at the latest reset.
   */
  lemma {:induction false} TotalsSinceReset(log: seq<Event>)
    ensures Add(After(log).stats, Tally(UpToReset(log))) == Tally(log)
  {
    hide Tally, Add, Next, After;
    if log == [] || log[|log| - 1].Reset? {
      NothingSince(log);
      AddZero(Tally(log));
    } else {
      var init, e := log[..|log| - 1], log[|log| - 1];
      assert log == init + [e];
      TotalsSinceReset(init);
      TotalsStep(init, e);
    }
  }

  lemma NothingSince(log: seq<Event>)
    requires log == [] || log[|log| - 1].Reset?
    ensures After(log).stats == ZERO
  {
  }

  lemma TotalsStep(init: seq<Event>, e: Event)
    requires !e.Reset? && Add(After(init).stats, Tally(UpToReset(init))) == Tally(init)
    ensures Add(After(init + [e]).stats, Tally(UpToReset(init))) == Tally(init + [e])
  {
    hide UpToReset, Add, TallyTo, After, Tally;
    if e.Observed? {
      UnconcernedStep(init, e);
    } else if Concerns(init, e, e.id) {
      ConcernedStep(init, e, e.id);
    } else {
      UnconcernedStep(init, e);
    }
  }

  lemma UnconcernedStep(init: seq<Event>, e: Event)
    requires !e.Reset? && forall id: nat :: !Concerns(init, e, id)
    ensures After(init + [e]).stats == After(init).stats && Tally(init + [e]) == Tally(init)
  {
    UnconcernedTally(init, e);
    FlagsFollowHistory(init);
    assert (init + [e])[..|init|] == init;
    assert e.Judged? || e.Ended? ==> !Concerns(init, e, e.id);
    hide Tally, FirstEnd, Accepted, PathOf, IsHealthCheck, FlagsFrom;
  }

  lemma UnconcernedTally(init: seq<Event>, e: Event)
    requires forall id: nat :: !Concerns(init, e, id)
    ensures Tally(init + [e]) == Tally(init)
  {
    hide Observations, Share, Add, Concerns, TallyTo;
    var n := Observations(init);
    forall k | 0 <= k <= n ensures Share(init + [e], k) == Share(init, k) { ShareStays(init, e, k); }
    SameTally(init, e, n);
    ObservationsMove(init, e);
    NewRequest(init, n);
    TallyZero(init + [e], n);
  }

  lemma ShareStays(init: seq<Event>, e: Event, id: nat)
    requires !Concerns(init, e, id)
    ensures Share(init + [e], id) == Share(init, id)
  {
    hide ShareOf, Concerns, FirstEnd, Accepted;
    HistoryStays(init, e, id);
  }

  lemma TallyZero(log: seq<Event>, n: nat)
    requires Share(log, n) == ZERO
    ensures TallyTo(log, n + 1) == TallyTo(log, n)
  {
    hide Share, Add;
    AddZero(TallyTo(log, n));
  }

  lemma ObservationsMove(init: seq<Event>, e: Event)
    ensures Observations(init + [e]) == Observations(init) || Observations(init + [e]) == Observations(init) + 1
  {
    assert (init + [e])[..|init|] == init;
  }

  lemma ConcernedStep(init: seq<Event>, e: Event, id: nat)
    requires Concerns(init, e, id) && Add(After(init).stats, Tally(UpToReset(init))) == Tally(init)
    ensures Add(After(init + [e]).stats, Tally(UpToReset(init))) == Tally(init + [e])
  {
    assert (init + [e])[..|init|] == init;
    var n := Observations(init);
    assert Observations(init + [e]) == n && id < n;
    forall k | 0 <= k < n && k != id ensures Share(init + [e], k) == Share(init, k) { HistoryStays(init, e, k); }
    OneMoves(init, e, id, n);
    StatsMove(init, e, id);
    Cancel(After(init).stats, After(init + [e]).stats, Tally(init), Tally(init + [e]), Tally(UpToReset(init)),
           Share(init, id), Share(init + [e], id));
    hide *;
  }

  // ---- What follows for the counters ----

  predicate Balanced(s: Stats) {
    && s.requests == s.http.completed + s.http.disconnected
    && s.relay.total == s.relay.completed + s.relay.failed + s.relay.incomplete
  }

  predicate Natural(s: Stats) {
    && s.requests >= 0 && s.http.completed >= 0 && s.http.disconnected >= 0
    && s.http.status2xx >= 0 && s.http.status3xx >= 0 && s.http.status4xx >= 0 && s.http.status5xx >= 0
    && s.relay.total >= 0 && s.relay.completed >= 0 && s.relay.failed >= 0 && s.relay.incomplete >= 0
    && s.relay.unmetered >= 0
  }

  lemma FlagsBalance(f: Flags, ends: int, http: Http)
    requires ends == http.completed + http.disconnected && Natural(Stats(ends, http, NO_RELAY))
    ensures Balanced(Stats(ends, http, RelayShare(f))) && Natural(Stats(ends, http, RelayShare(f)))
  {
    match f.outcome
    case None =>
    case Some(Completed) =>
    case Some(Failed) =>
    case Some(Incomplete) =>
  }

  lemma ShareIsBalanced(end: Option<(bool, Response)>, verdicts: seq<Verdict>)
    ensures Balanced(ShareOf(end, verdicts)) && Natural(ShareOf(end, verdicts))
  {
    FlagsBalance(FlagsFrom(end, verdicts), One(end.Some?), EndShare(end));
    hide FlagsFrom, RelayShare, Balanced, Natural;
  }

  lemma SumsKeepBalance(a: Stats, b: Stats)
    ensures Balanced(a) && Balanced(b) ==> Balanced(Add(a, b))
    ensures Natural(a) && Natural(b) ==> Natural(Add(a, b))
    ensures Balanced(b) && Balanced(Add(a, b)) ==> Balanced(a)
  {
  }

  lemma ZeroIsBalanced()
    ensures Balanced(ZERO) && Natural(ZERO)
  {
  }

  lemma {:induction false} TallyIsBalanced(log: seq<Event>, n: nat)
    ensures Balanced(TallyTo(log, n)) && Natural(TallyTo(log, n))
  {
    hide Balanced, Natural, Add, ShareOf;
    if n == 0 {
      ZeroIsBalanced();
    } else {
      TallyIsBalanced(log, n - 1);
      ShareIsBalanced(FirstEnd(log, n - 1), Accepted(log, n - 1));
      SumsKeepBalance(TallyTo(log, n - 1), Share(log, n - 1));
    }
  }

  /** Over every interleaving of any number of requests and resets, the sums add up. */
  lemma CountersConserved(log: seq<Event>)
    ensures Balanced(After(log).stats)
  {
    TotalsSinceReset(log);
    TallyIsBalanced(log, Observations(log));
    TallyIsBalanced(UpToReset(log), Observations(UpToReset(log)));
    SumsKeepBalance(After(log).stats, Tally(UpToReset(log)));
    hide Balanced, Add, After, TallyTo, Natural;
  }

  /** Of the first `n` requests, those that have ended. */
  ghost function EndedIds(log: seq<Event>, n: nat): set<nat> {
    set id: nat | id < n && FirstEnd(log, id).Some?
  }

  /** Those with a verdict. */
  ghost function JudgedIds(log: seq<Event>, n: nat): set<nat> {
    set id: nat | id < n && Accepted(log, id) != []
  }

  /** Those whose latest accepted verdict that knows about usage found none. */
  ghost function UnmeteredIds(log: seq<Event>, n: nat): set<nat> {
    set id: nat | id < n && LatestUsage(Accepted(log, id)) == Some(false)
  }

  /** Without a reset no counter is negative, and each is the number of requests it names. */
  lemma CountersCount(log: seq<Event>)
    requires forall e <- log :: !e.Reset?
    ensures Natural(After(log).stats) && After(log).stats == Tally(log)
    ensures After(log).stats.requests == |EndedIds(log, Observations(log))|
    ensures After(log).stats.relay.total == |JudgedIds(log, Observations(log))|
    ensures After(log).stats.relay.unmetered == |UnmeteredIds(log, Observations(log))|
  {
    NoReset(log);
    TotalsSinceReset(log);
    assert Tally([]) == ZERO;
    AddZero(After(log).stats);
    TallyIsBalanced(log, Observations(log));
    EndsCounted(log, Observations(log));
    JudgedCounted(log, Observations(log));
    UnmeteredCounted(log, Observations(log));
    hide After, TallyTo, Add, Natural, Balanced, Observations;
  }

  lemma {:induction false} NoReset(log: seq<Event>)
    requires forall e <- log :: !e.Reset?
    ensures UpToReset(log) == []
  {
    if log != [] { NoReset(log[..|log| - 1]); }
  }

  lemma {:induction false} EndsCounted(log: seq<Event>, n: nat)
    ensures TallyTo(log, n).requests == |EndedIds(log, n)|
  {
    hide FirstEnd, Accepted, EndShare;
    if n > 0 {
      EndsCounted(log, n - 1);
      var fewer := EndedIds(log, n - 1);
      assert EndedIds(log, n) == if FirstEnd(log, n - 1).Some? then fewer + {n - 1} else fewer;
    }
  }

  lemma {:induction false} JudgedCounted(log: seq<Event>, n: nat)
    ensures TallyTo(log, n).relay.total == |JudgedIds(log, n)|
  {
    hide FirstEnd, Accepted, ShareOf, Add;
    if n > 0 {
      JudgedCounted(log, n - 1);
      JudgedShare(TallyTo(log, n - 1), FirstEnd(log, n - 1), Accepted(log, n - 1));
      var fewer := JudgedIds(log, n - 1);
      assert JudgedIds(log, n) == if Accepted(log, n - 1) != [] then fewer + {n - 1} else fewer;
    }
  }

  lemma JudgedShare(s: Stats, end: Option<(bool, Response)>, verdicts: seq<Verdict>)
    ensures Add(s, ShareOf(end, verdicts)).relay.total == s.relay.total + One(verdicts != [])
  {
    hide OutcomeOf, LatestUsage, AnyFinal, EndShare;
  }

  lemma {:induction false} UnmeteredCounted(log: seq<Event>, n: nat)
    ensures TallyTo(log, n).relay.unmetered == |UnmeteredIds(log, n)|
  {
    hide FirstEnd, Accepted, LatestUsage;
    if n > 0 {
      UnmeteredCounted(log, n - 1);
      var fewer := UnmeteredIds(log, n - 1);
      assert UnmeteredIds(log, n)
          == if LatestUsage(Accepted(log, n - 1)) == Some(false) then fewer + {n - 1} else fewer;
    }
  }

  // ---- Every counter counts ----

  /** The counters that tell the requests apart. */
  datatype Counter = HttpCompleted | HttpDisconnected | Status2xx | Status3xx | Status4xx | Status5xx
                   | RelayCompleted | RelayFailed | RelayIncomplete

  function Value(c: Counter, s: Stats): int {
    match c
    case HttpCompleted => s.http.completed
    case HttpDisconnected => s.http.disconnected
    case Status2xx => s.http.status2xx
    case Status3xx => s.http.status3xx
    case Status4xx => s.http.status4xx
    case Status5xx => s.http.status5xx
    case RelayCompleted => s.relay.completed
    case RelayFailed => s.relay.failed
    case RelayIncomplete => s.relay.incomplete
  }

  /** A status reached the client that lies in the hundred from `low` on. */
  predicate ShowsStatus(end: (bool, Response), low: nat) {
    (end.0 ==> end.1.headersSent) && low <= end.1.statusCode < low + 100
  }

  predicate SaysIncomplete(v: Verdict) { v.errorCode == "response_incomplete" }

  predicate SaysFailed(v: Verdict) {
    && !SaysIncomplete(v)
    && ((v.statusCode.Some? && v.statusCode.value >= 400) || (v.errorCode != "" && v.errorCode != "usage_missing"))
  }

  /** What a counter counts, by the first end of a request and its latest accepted verdict. */
  predicate Counts(c: Counter, end: Option<(bool, Response)>, verdict: Option<Verdict>) {
    match c
    case HttpCompleted => end.Some? && !end.value.0
    case HttpDisconnected => end.Some? && end.value.0
    case Status2xx => end.Some? && ShowsStatus(end.value, 200)
    case Status3xx => end.Some? && ShowsStatus(end.value, 300)
    case Status4xx => end.Some? && ShowsStatus(end.value, 400)
    case Status5xx => end.Some? && ShowsStatus(end.value, 500)
    case RelayCompleted => verdict.Some? && !SaysIncomplete(verdict.value) && !SaysFailed(verdict.value)
    case RelayFailed => verdict.Some? && SaysFailed(verdict.value)
    case RelayIncomplete => verdict.Some? && SaysIncomplete(verdict.value)
  }

  function LatestVerdict(verdicts: seq<Verdict>): Option<Verdict> {
    if verdicts == [] then None else Some(verdicts[|verdicts| - 1])
  }

  /** Of the first `n` requests, those that a counter counts. */
  ghost function CountedIds(c: Counter, log: seq<Event>, n: nat): set<nat> {
    set id: nat | id < n && Counts(c, FirstEnd(log, id), LatestVerdict(Accepted(log, id)))
  }

  lemma HttpPart(c: Counter, end: Option<(bool, Response)>, verdicts: seq<Verdict>)
    requires !c.RelayCompleted? && !c.RelayFailed? && !c.RelayIncomplete?
    ensures Value(c, ShareOf(end, verdicts)) == if Counts(c, end, LatestVerdict(verdicts)) then 1 else 0
  {
    hide FlagsFrom, RelayShare, SaysFailed, SaysIncomplete;
  }

  lemma RelayPart(c: Counter, end: Option<(bool, Response)>, verdicts: seq<Verdict>)
    requires c.RelayCompleted? || c.RelayFailed? || c.RelayIncomplete?
    ensures Value(c, ShareOf(end, verdicts)) == if Counts(c, end, LatestVerdict(verdicts)) then 1 else 0
  {
    hide EndShare, LatestUsage, AnyFinal, ShowsStatus;
  }

  lemma ValueAdds(c: Counter, a: Stats, b: Stats)
    ensures Value(c, Add(a, b)) == Value(c, a) + Value(c, b) && Value(c, ZERO) == 0
  {
  }

  lemma {:induction false} CounterTallies(c: Counter, log: seq<Event>, n: nat)
    ensures Value(c, TallyTo(log, n)) == |CountedIds(c, log, n)|
  {
    hide Value, Add, ShareOf, Counts, FirstEnd, Accepted, CountedIds, LatestVerdict;
    CountedNext(c, log, n);
    if n == 0 {
      ValueAdds(c, ZERO, ZERO);
    } else {
      CounterTallies(c, log, n - 1);
      var end, verdicts := FirstEnd(log, n - 1), Accepted(log, n - 1);
      ValueAdds(c, TallyTo(log, n - 1), Share(log, n - 1));
      if c.RelayCompleted? || c.RelayFailed? || c.RelayIncomplete? {
        RelayPart(c, end, verdicts);
      } else {
        HttpPart(c, end, verdicts);
      }
    }
  }

  lemma CountedNext(c: Counter, log: seq<Event>, n: nat)
    ensures n == 0 ==> CountedIds(c, log, n) == {}
    ensures n > 0 ==>
              |CountedIds(c, log, n)|
              == |CountedIds(c, log, n - 1)|
                 + if Counts(c, FirstEnd(log, n - 1), LatestVerdict(Accepted(log, n - 1))) then 1 else 0
  {
    hide Counts, FirstEnd, Accepted, LatestVerdict;
    if n > 0 {
      var fewer := CountedIds(c, log, n - 1);
      assert CountedIds(c, log, n)
          == if Counts(c, FirstEnd(log, n - 1), LatestVerdict(Accepted(log, n - 1))) then fewer + {n - 1} else fewer;
    }
  }

  /**
    Without a reset every counter counts what it is named for: the responses that finished or were dropped,
    those whose status the client saw, by hundreds, and the requests whose latest accepted verdict is a
    failure (a status from 400 on or an error other than missing usage), incomplete, or neither.
   */
  lemma EveryCounterCounts(c: Counter, log: seq<Event>)
    requires forall e <- log :: !e.Reset?
    ensures Value(c, After(log).stats) == |CountedIds(c, log, Observations(log))|
  {
    CountersCount(log);
    CounterTallies(c, log, Observations(log));
    hide After, TallyTo, Value, CountedIds, Natural;
  }

  /** After a final verdict a verdict that is not final changes nothing. */
  lemma FinalStays(log: seq<Event>, id: nat, v: Verdict)
    requires AnyFinal(Accepted(log, id)) && !v.final
    ensures After(log + [Judged(id, v)]) == After(log)
  {
    hide FirstEnd, Accepted, Observations, After, Next, LatestUsage, LatestOutcome, AnyFinal;
    FlagsFollowHistory(log);
    AfterOne(log, Judged(id, v));
    JudgedIgnored(After(log), id, v);
  }

  lemma JudgedIgnored(st: State, id: nat, v: Verdict)
    requires id < |st.requests| ==> !Accepts(st.requests[id], v)
    ensures Next(st, Judged(id, v)) == st
  {
    hide OutcomeOf, IsHealthCheck, PathOf, StatsAfterEnd, AfterEnd;
    if id < |st.requests| { assert st.requests[id := st.requests[id]] == st.requests; }
  }

  lemma FailedToCompleted(f: Flags, better: Verdict)
    requires f.outcome == Some(Failed) && OutcomeOf(better) == Completed && Accepts(f, better)
    ensures Moved(NO_RELAY, f, AfterVerdict(f, better)).failed == -1
  {
    hide OutcomeOf;
    assert AfterVerdict(f, better).outcome == Some(Completed);
    hide AfterVerdict;
  }

  lemma JudgedNext(st: State, id: nat, v: Verdict)
    requires id < |st.requests|
    ensures Next(st, Judged(id, v)).stats.relay
            == Moved(st.stats.relay, st.requests[id], AfterVerdict(st.requests[id], v))
  {
    hide OutcomeOf, Moved, AfterVerdict, IsHealthCheck, PathOf, StatsAfterEnd, AfterEnd;
  }

  lemma BelowZero(requests: seq<Flags>, id: nat, better: Verdict)
    requires id < |requests| && requests[id].outcome == Some(Failed)
    requires OutcomeOf(better) == Completed && Accepts(requests[id], better)
    ensures Next(State(ZERO, requests), Judged(id, better)).stats.relay.failed == -1
  {
    JudgedNext(State(ZERO, requests), id, better);
    FailedToCompleted(requests[id], better);
    hide *;
  }

  /** Whenever a request judged before a reset improves after it, its old outcome is counted below zero. */
  lemma ResetGoesNegative(log: seq<Event>, id: nat, better: Verdict)
    requires id < Observations(log) && LatestOutcome(Accepted(log, id)) == Some(Failed)
    requires OutcomeOf(better) == Completed && (better.final || !AnyFinal(Accepted(log, id)))
    ensures After(log + [Reset] + [Judged(id, better)]).stats.relay.failed == -1
  {
    FlagsFollowHistory(log);
    assert Accepts(After(log).requests[id], better) && Next(After(log), Reset) == State(ZERO, After(log).requests);
    AfterOne(log, Reset);
    AfterOne(log + [Reset], Judged(id, better));
    BelowZero(After(log).requests, id, better);
    hide *;
  }

  // ---- Non-negative counters across a reset ----

  /** No request that was judged before the latest reset has accepted a verdict since. */
  predicate JudgedStay(log: seq<Event>) {
    var base := UpToReset(log);
    forall id :: 0 <= id < Observations(base) && Accepted(base, id) != [] ==> Accepted(log, id) == Accepted(base, id)
  }

  predicate Below(a: Stats, b: Stats) {
    && a.requests <= b.requests && a.http.completed <= b.http.completed && a.http.disconnected <= b.http.disconnected
    && a.http.status2xx <= b.http.status2xx && a.http.status3xx <= b.http.status3xx
    && a.http.status4xx <= b.http.status4xx && a.http.status5xx <= b.http.status5xx
    && a.relay.total <= b.relay.total && a.relay.completed <= b.relay.completed && a.relay.failed <= b.relay.failed
    && a.relay.incomplete <= b.relay.incomplete && a.relay.unmetered <= b.relay.unmetered
  }

  lemma BelowAdds(a: Stats, b: Stats, c: Stats, d: Stats)
    requires Below(a, b) && Below(c, d)
    ensures Below(Add(a, c), Add(b, d))
  {
  }

  lemma NaturalAdds(a: Stats, b: Stats)
    ensures Below(a, a) && (Natural(b) ==> Below(a, Add(a, b)))
  {
  }

  lemma BelowTrans(a: Stats, b: Stats, c: Stats)
    requires Below(a, b) && Below(b, c)
    ensures Below(a, c)
  {
  }

  lemma DifferenceNatural(s: Stats, base: Stats, all: Stats)
    requires Add(s, base) == all
    ensures Natural(s) <==> Below(base, all)
  {
  }

  lemma {:induction false} EndStays(log: seq<Event>, k: nat, id: nat)
    requires k <= |log| && FirstEnd(log[..k], id).Some?
    ensures FirstEnd(log, id) == FirstEnd(log[..k], id)
    decreases |log|
  {
    if k == |log| {
      assert log[..k] == log;
    } else {
      var init := log[..|log| - 1];
      assert init[..k] == log[..k];
      EndStays(init, k, id);
      hide Concerns;
    }
  }

  lemma {:induction false} ObservationsGrow(log: seq<Event>, k: nat)
    requires k <= |log|
    ensures Observations(log[..k]) <= Observations(log)
    decreases |log|
  {
    hide PathOf, IsHealthCheck;
    if k == |log| {
      assert log[..k] == log;
    } else {
      assert log[..|log| - 1][..k] == log[..k];
      ObservationsGrow(log[..|log| - 1], k);
    }
  }

  lemma {:induction false} UpToResetIsPrefix(log: seq<Event>)
    ensures |UpToReset(log)| <= |log| && UpToReset(log) == log[..|UpToReset(log)|]
  {
    if log != [] && !log[|log| - 1].Reset? {
      UpToResetIsPrefix(log[..|log| - 1]);
      assert log[..|log| - 1][..|UpToReset(log)|] == log[..|UpToReset(log)|];
    } else {
      assert log[..|log|] == log;
    }
  }

  /** A later end or a first judgement only adds to a share. */
  lemma SharesBelow(end: Option<(bool, Response)>, verdicts: seq<Verdict>, end': Option<(bool, Response)>,
                    verdicts': seq<Verdict>)
    requires end.Some? ==> end' == end
    requires verdicts != [] ==> verdicts' == verdicts
    ensures Below(ShareOf(end, verdicts), ShareOf(end', verdicts'))
  {
    EndsBelow(end, end', FlagsFrom(end, verdicts), FlagsFrom(end', verdicts'));
    FlagsBelow(end, verdicts, end', verdicts');
    hide FlagsFrom, RelayShare, HttpShare, EndShare;
  }

  lemma EndsBelow(end: Option<(bool, Response)>, end': Option<(bool, Response)>, f: Flags, f': Flags)
    requires end.Some? ==> end' == end
    ensures Below(Stats(One(end.Some?), EndShare(end), NO_RELAY), Stats(One(end'.Some?), EndShare(end'), NO_RELAY))
  {
  }

  lemma FlagsBelow(end: Option<(bool, Response)>, verdicts: seq<Verdict>, end': Option<(bool, Response)>,
                   verdicts': seq<Verdict>)
    requires verdicts != [] ==> verdicts' == verdicts
    ensures Below(Stats(0, NO_HTTP, RelayShare(FlagsFrom(end, verdicts))),
                  Stats(0, NO_HTTP, RelayShare(FlagsFrom(end', verdicts'))))
  {
    hide OutcomeOf, AnyFinal;
  }

  lemma {:induction false} TalliesBelow(base: seq<Event>, log: seq<Event>, n: nat)
    requires forall id :: 0 <= id < n ==> Below(Share(base, id), Share(log, id))
    ensures Below(TallyTo(base, n), TallyTo(log, n))
  {
    hide Share, Add, Below;
    if n == 0 {
      NaturalAdds(ZERO, ZERO);
    } else {
      TalliesBelow(base, log, n - 1);
      BelowAdds(TallyTo(base, n - 1), TallyTo(log, n - 1), Share(base, n - 1), Share(log, n - 1));
    }
  }

  lemma {:induction false} TallyGrows(log: seq<Event>, n: nat, m: nat)
    requires n <= m
    ensures Below(TallyTo(log, n), TallyTo(log, m))
  {
    hide Add, Below, ShareOf, Natural;
    if n == m {
      NaturalAdds(TallyTo(log, n), ZERO);
    } else {
      TallyGrows(log, n, m - 1);
      ShareIsBalanced(FirstEnd(log, m - 1), Accepted(log, m - 1));
      NaturalAdds(TallyTo(log, m - 1), Share(log, m - 1));
      BelowTrans(TallyTo(log, n), TallyTo(log, m - 1), TallyTo(log, m));
    }
  }

  lemma TallyBelow(log: seq<Event>)
    requires JudgedStay(log)
    ensures Below(Tally(UpToReset(log)), Tally(log))
  {
    var base := UpToReset(log);
    var n, m := Observations(base), Observations(log);
    UpToResetIsPrefix(log);
    ObservationsGrow(log, |base|);
    forall id | 0 <= id < n ensures Below(Share(base, id), Share(log, id)) {
      if FirstEnd(base, id).Some? { EndStays(log, |base|, id); }
      hide FirstEnd, Accepted;
      SharesBelow(FirstEnd(base, id), Accepted(base, id), FirstEnd(log, id), Accepted(log, id));
    }
    TalliesBelow(base, log, n);
    TallyGrows(log, n, m);
    BelowTrans(Tally(base), TallyTo(log, n), Tally(log));
    hide *;
  }

  /**
    Across resets the counters are non-negative exactly when no count over the requests is less than it was
    at the latest reset, and so whenever no request that was judged before it has accepted a verdict since.
   */
  lemma NonNegativeAcrossReset(log: seq<Event>)
    ensures Natural(After(log).stats) <==> Below(Tally(UpToReset(log)), Tally(log))
    ensures JudgedStay(log) ==> Natural(After(log).stats)
  {
    TotalsSinceReset(log);
    DifferenceNatural(After(log).stats, Tally(UpToReset(log)), Tally(log));
    if JudgedStay(log) { TallyBelow(log); }
    hide *;
  }
}
