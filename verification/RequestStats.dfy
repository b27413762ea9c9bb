/**
  The HTTP and relay counters: a module of totals, and per request the flags its callbacks update. The
  machine runs any number of requests, their callbacks in any order, and resets of the totals.
 */
module RequestStats {
  import opened Options

  datatype Outcome = Completed | Failed | Incomplete

  datatype Http = Http(completed: int, disconnected: int, status2xx: int, status3xx: int, status4xx: int,
                       status5xx: int)
  datatype Relay = Relay(total: int, completed: int, failed: int, incomplete: int, unmetered: int)
  datatype Stats = Stats(requests: int, http: Http, relay: Relay)

  const NO_HTTP := Http(0, 0, 0, 0, 0, 0)
  const NO_RELAY := Relay(0, 0, 0, 0, 0)
  const ZERO := Stats(0, NO_HTTP, NO_RELAY)

  function AddHttp(a: Http, b: Http): Http {
    Http(a.completed + b.completed, a.disconnected + b.disconnected, a.status2xx + b.status2xx,
         a.status3xx + b.status3xx, a.status4xx + b.status4xx, a.status5xx + b.status5xx)
  }

  function AddRelay(a: Relay, b: Relay): Relay {
    Relay(a.total + b.total, a.completed + b.completed, a.failed + b.failed, a.incomplete + b.incomplete,
          a.unmetered + b.unmetered)
  }

  function SubRelay(a: Relay, b: Relay): Relay {
    Relay(a.total - b.total, a.completed - b.completed, a.failed - b.failed, a.incomplete - b.incomplete,
          a.unmetered - b.unmetered)
  }

  function Add(a: Stats, b: Stats): Stats {
    Stats(a.requests + b.requests, AddHttp(a.http, b.http), AddRelay(a.relay, b.relay))
  }

  /** A relay verdict; an empty `errorCode` is none, and `hasUsage` counts only when it is a boolean. */
  datatype Verdict = Verdict(statusCode: Option<int>, errorCode: string, hasUsage: Option<bool>, final: bool)

  function OutcomeOf(v: Verdict): Outcome {
    if v.errorCode == "response_incomplete" then Incomplete
    else if (v.statusCode.Some? && v.statusCode.value >= 400) || (v.errorCode != "" && v.errorCode != "usage_missing")
    then Failed
    else Completed
  }

  /** The response as its end finds it. */
  datatype Response = Response(statusCode: nat, headersSent: bool, upstreamHeaders: bool, usageHandled: bool)

  datatype Flags = Flags(ended: bool, outcome: Option<Outcome>, unmetered: bool, final: bool)

  const FRESH := Flags(false, None, false, false)

  predicate IsHealthCheck(path: string) { path == "/health" || path == "/api/health" }

  /** The path without its query. */
  function PathOf(url: string): (path: string)
    ensures '?' !in path && (path == url || path + "?" <= url)
  {
    if url == "" || url[0] == '?' then "" else [url[0]] + PathOf(url[1..])
  }

  // ---- What one request contributes to the totals ----

  function One(b: bool): int { if b then 1 else 0 }

  function RelayShare(f: Flags): Relay {
    Relay(One(f.outcome.Some?), One(f.outcome == Some(Completed)), One(f.outcome == Some(Failed)),
          One(f.outcome == Some(Incomplete)), One(f.unmetered))
  }

  /** A dropped connection has a status only once the headers are out. */
  function HttpShare(disconnected: bool, res: Response): Http {
    var status := if !disconnected || res.headersSent then res.statusCode / 100 else 0;
    Http(One(!disconnected), One(disconnected), One(status == 2), One(status == 3), One(status == 4), One(status == 5))
  }

  // ---- The callbacks ----

  predicate Accepts(f: Flags, v: Verdict) { !f.final || v.final }

  function AfterVerdict(f: Flags, v: Verdict): Flags {
    if !Accepts(f, v) then f
    else
      var unmetered := if v.hasUsage.Some? then !v.hasUsage.value else f.unmetered;
      Flags(f.ended, Some(OutcomeOf(v)), unmetered, f.final || v.final)
  }

  /** The totals follow the request: out with what it contributed, in with what it contributes now. */
  function Moved(relay: Relay, before: Flags, after: Flags): Relay {
    AddRelay(SubRelay(relay, RelayShare(before)), RelayShare(after))
  }

  /** A finished answer of an upstream that nobody has judged is judged by its status. */
  predicate NeedsFallback(f: Flags, disconnected: bool, res: Response) {
    !disconnected && f.outcome.None? && res.upstreamHeaders && !res.usageHandled
  }

  function Fallback(res: Response): Verdict { Verdict(Some(res.statusCode), "", None, false) }

  function AfterEnd(f: Flags, disconnected: bool, res: Response): Flags {
    if f.ended then f
    else if NeedsFallback(f, disconnected, res) then AfterVerdict(f.(ended := true), Fallback(res))
    else f.(ended := true)
  }

  function StatsAfterEnd(s: Stats, f: Flags, disconnected: bool, res: Response): Stats {
    if f.ended then s
    else Stats(s.requests + 1, AddHttp(s.http, HttpShare(disconnected, res)),
               Moved(s.relay, f, AfterEnd(f, disconnected, res)))
  }

  class HttpRequestStats {
    var stats: Stats

    constructor ()
      ensures stats == ZERO
    {
      stats := ZERO;
    }

    method Reset()
      modifies this
      ensures stats == ZERO
    {
      stats := ZERO;
    }

    /** Requests for the health paths are not observed. */
    method Observe(url: string) returns (request: ObservedRequest?)
      ensures request == null <==> IsHealthCheck(PathOf(url))
      ensures request != null ==> fresh(request) && request.totals == this && request.Current() == FRESH
    {
      if IsHealthCheck(PathOf(url)) { return null; }
      request := new ObservedRequest(this);
    }
  }

  class ObservedRequest {
    const totals: HttpRequestStats
    var httpRecorded: bool
    var relayOutcome: Option<Outcome>
    var relayUnmetered: bool
    var relayFinal: bool

    function Current(): Flags
      reads this
    {
      Flags(httpRecorded, relayOutcome, relayUnmetered, relayFinal)
    }

    constructor (totals: HttpRequestStats)
      ensures this.totals == totals && Current() == FRESH
    {
      this.totals := totals;
      httpRecorded, relayOutcome, relayUnmetered, relayFinal := false, None, false, false;
    }

    /** Take the old outcome, if any, out of the totals and put the new one in. */
    method MoveOutcome(outcome: Outcome)
      modifies totals, `relayOutcome
      ensures relayOutcome == Some(outcome)
      ensures var before, share := old(totals.stats.relay), RelayShare(old(Current()));
              totals.stats == old(totals.stats).(relay := Relay(
                  before.total - share.total + 1, before.completed - share.completed + One(outcome == Completed),
                  before.failed - share.failed + One(outcome == Failed),
                  before.incomplete - share.incomplete + One(outcome == Incomplete), before.unmetered))
    {
      if relayOutcome == Some(outcome) { return; }
      var relay := totals.stats.relay;
      match relayOutcome {
        case None => relay := relay.(total := relay.total + 1);
        case Some(Completed) => relay := relay.(completed := relay.completed - 1);
        case Some(Failed) => relay := relay.(failed := relay.failed - 1);
        case Some(Incomplete) => relay := relay.(incomplete := relay.incomplete - 1);
      }
      match outcome {
        case Completed => relay := relay.(completed := relay.completed + 1);
        case Failed => relay := relay.(failed := relay.failed + 1);
        case Incomplete => relay := relay.(incomplete := relay.incomplete + 1);
      }
      totals.stats := totals.stats.(relay := relay);
      relayOutcome := Some(outcome);
    }

    method RecordRelayResult(v: Verdict)
      modifies this, totals
      ensures Current() == AfterVerdict(old(Current()), v)
      ensures totals.stats == old(totals.stats).(relay := Moved(old(totals.stats.relay), old(Current()), Current()))
    {
      if relayFinal && !v.final { return; }
      hide OutcomeOf;
      MoveOutcome(OutcomeOf(v));
      if v.hasUsage.Some? && relayUnmetered != !v.hasUsage.value {
        var relay := totals.stats.relay;
        var change := if v.hasUsage.value then -1 else 1;
        totals.stats := totals.stats.(relay := relay.(unmetered := relay.unmetered + change));
        relayUnmetered := !v.hasUsage.value;
      }
      relayFinal := relayFinal || v.final;
    }

    method RecordHttp(disconnected: bool, res: Response)
      modifies this, totals
      ensures Current() == AfterEnd(old(Current()), disconnected, res)
      ensures totals.stats == StatsAfterEnd(old(totals.stats), old(Current()), disconnected, res)
    {
      if httpRecorded { return; }
      httpRecorded := true;
      var http := totals.stats.http;
      if disconnected {
        http := http.(disconnected := http.disconnected + 1);
      } else {
        http := http.(completed := http.completed + 1);
      }
      if !disconnected || res.headersSent {
        match res.statusCode / 100 {
          case 2 => http := http.(status2xx := http.status2xx + 1);
          case 3 => http := http.(status3xx := http.status3xx + 1);
          case 4 => http := http.(status4xx := http.status4xx + 1);
          case 5 => http := http.(status5xx := http.status5xx + 1);
          case _ =>
        }
      }
      totals.stats := totals.stats.(requests := totals.stats.requests + 1, http := http);
      if !disconnected && relayOutcome.None? && res.upstreamHeaders && !res.usageHandled {
        RecordRelayResult(Fallback(res));
      }
    }
  }

  // ---- Runs of many requests ----

  /** Requests are numbered in the order in which they are observed. */
  datatype Event =
    | Observed(url: string)
    | Judged(id: nat, verdict: Verdict)
    | Ended(id: nat, disconnected: bool, response: Response)
    | Reset

  datatype State = State(stats: Stats, requests: seq<Flags>)

  /** A callback of a request that nobody observes does not exist. */
  function Next(st: State, e: Event): State {
    match e
    case Observed(url) => if IsHealthCheck(PathOf(url)) then st else st.(requests := st.requests + [FRESH])
    case Judged(id, v) =>
      if id >= |st.requests| then st
      else
        var f := st.requests[id];
        State(st.stats.(relay := Moved(st.stats.relay, f, AfterVerdict(f, v))), st.requests[id := AfterVerdict(f, v)])
    case Ended(id, disconnected, res) =>
      if id >= |st.requests| then st
      else
        var f := st.requests[id];
        State(StatsAfterEnd(st.stats, f, disconnected, res), st.requests[id := AfterEnd(f, disconnected, res)])
    case Reset => st.(stats := ZERO)
  }

  function After(log: seq<Event>): State {
    if log == [] then State(ZERO, []) else Next(After(log[..|log| - 1]), log[|log| - 1])
  }
}
