/**
  The log viewer's bounded window: entries arrive from a stream, the newest `limit` matching ones are
  kept in time order by binary insertion and dropping from the front.
 */
module LogWindow {
  import opened Options

  /** `arrival` numbers the entries in the order in which they are read; the viewer never looks at it. */
  datatype Entry = Entry(time: Option<int>, arrival: nat, text: seq<char>)

  /** An entry without a time counts as written now. */
  function Time(e: Entry, now: int): int { e.time.GetOr(now) }

  /** The stable order: by time, where none counts as now, and by arrival among equal times. */
  predicate Before(a: Entry, b: Entry, now: int) {
    var x, y := if a.time.Some? then a.time.value else now, if b.time.Some? then b.time.value else now;
    x < y || (x == y && a.arrival < b.arrival)
  }

  ghost predicate StableOrder(s: seq<Entry>, now: int) {
    forall i, j :: 0 <= i < j < |s| ==> Before(s[i], s[j], now)
  }

  /** The reference: `sorted` holds the same entries, in stable order of time. */
  ghost predicate IsStableSort(entries: seq<Entry>, sorted: seq<Entry>, now: int) {
    multiset(entries) == multiset(sorted) && StableOrder(sorted, now)
  }

  function Last(s: seq<Entry>, limit: nat): seq<Entry> {
    if |s| <= limit then s else s[|s| - limit..]
  }

  /** Where a time belongs: after every entry that is not later. */
  function Position(s: seq<Entry>, time: int, now: int): (p: nat)
    ensures p <= |s|
  {
    if s == [] || Time(s[|s| - 1], now) <= time then |s| else Position(s[..|s| - 1], time, now)
  }

  function Insert(s: seq<Entry>, e: Entry, now: int): (r: seq<Entry>)
    ensures |r| == |s| + 1
  {
    var p := Position(s, Time(e, now), now);
    s[..p] + [e] + s[p..]
  }

  /** One accepted entry. */
  function Accepted(s: seq<Entry>, e: Entry, limit: nat, now: int): seq<Entry> {
    var inserted := Insert(s, e, now);
    if |inserted| > limit then inserted[1..] else inserted
  }

  function Window(entries: seq<Entry>, limit: nat, now: int): seq<Entry> {
    if entries == [] then []
    else Accepted(Window(entries[..|entries| - 1], limit, now), entries[|entries| - 1], limit, now)
  }

  ghost predicate Ascending(s: seq<Entry>, now: int) {
    forall i, j :: 0 <= i < j < |s| ==> Time(s[i], now) <= Time(s[j], now)
  }

  lemma {:induction false} PositionSplits(s: seq<Entry>, time: int, now: int)
    requires Ascending(s, now)
    ensures var p := Position(s, time, now);
            && (forall i :: 0 <= i < p ==> Time(s[i], now) <= time)
            && (forall i :: p <= i < |s| ==> Time(s[i], now) > time)
  {
    if s != [] && Time(s[|s| - 1], now) > time { PositionSplits(s[..|s| - 1], time, now); }
  }

  lemma PositionUnique(s: seq<Entry>, time: int, now: int, p: nat)
    requires Ascending(s, now) && p <= |s|
    requires forall i :: 0 <= i < p ==> Time(s[i], now) <= time
    requires forall i :: p <= i < |s| ==> Time(s[i], now) > time
    ensures Position(s, time, now) == p
  {
    PositionSplits(s, time, now);
    var q := Position(s, time, now);
    assert q < |s| ==> Time(s[q], now) > time;
    assert p < |s| ==> Time(s[p], now) > time;
  }

  lemma CutInFront(front: seq<Entry>, e: Entry, back: seq<Entry>, k: nat)
    requires k <= |front|
    ensures (front + [e] + back)[k..] == front[k..] + [e] + back
  {
  }

  lemma PositionLate(s: seq<Entry>, time: int, k: nat, now: int)
    requires Ascending(s, now) && k <= Position(s, time, now)
    ensures Position(s[k..], time, now) == Position(s, time, now) - k
  {
    hide Position, Time;
    PositionSplits(s, time, now);
    PositionUnique(s[k..], time, now, Position(s, time, now) - k);
  }

  lemma InsertBehind(s: seq<Entry>, e: Entry, k: nat, p: nat)
    requires k <= p <= |s|
    ensures s[k..][..p - k] + [e] + s[k..][p - k..] == (s[..p] + [e] + s[p..])[k..]
  {
    CutInFront(s[..p], e, s[p..], k);
    assert s[k..][..p - k] == s[..p][k..] && s[k..][p - k..] == s[p..];
  }

  /** An entry that belongs among the last ones lands there. */
  lemma InsertLate(s: seq<Entry>, e: Entry, k: nat, now: int)
    requires Ascending(s, now) && k <= Position(s, Time(e, now), now)
    ensures Insert(s[k..], e, now) == Insert(s, e, now)[k..]
  {
    hide Position, Time, Ascending;
    PositionLate(s, Time(e, now), k, now);
    InsertBehind(s, e, k, Position(s, Time(e, now), now));
  }

  /** An entry older than the last ones goes in front of them, and is the one that is dropped. */
  lemma InsertEarly(s: seq<Entry>, e: Entry, k: nat, now: int)
    requires Ascending(s, now) && Position(s, Time(e, now), now) < k <= |s|
    ensures Insert(s[k..], e, now) == [e] + s[k..] && Insert(s, e, now)[k + 1..] == s[k..]
  {
    var t := Time(e, now);
    PositionSplits(s, t, now);
    PositionUnique(s[k..], t, now, 0);
    hide Position, Time;
    assert s[k..][..0] == [] && s[k..][0..] == s[k..];
  }

  /** Inserting into the last entries and dropping the first is inserting into all and keeping the last. */
  lemma InsertIntoLast(s: seq<Entry>, e: Entry, limit: nat, now: int)
    requires limit >= 1 && Ascending(s, now)
    ensures Accepted(Last(s, limit), e, limit, now) == Last(Insert(s, e, now), limit)
  {
    hide Position, Time, Insert;
    if |s| > limit {
      var k := |s| - limit;
      var all := Insert(s, e, now);
      if k <= Position(s, Time(e, now), now) {
        InsertLate(s, e, k, now);
        assert all[k..][1..] == all[k + 1..];
      } else {
        InsertEarly(s, e, k, now);
        assert ([e] + s[k..])[1..] == s[k..];
      }
    }
  }

  /** Sorting by insertion of everything. */
  function SortAll(entries: seq<Entry>, now: int): seq<Entry> {
    if entries == [] then [] else Insert(SortAll(entries[..|entries| - 1], now), entries[|entries| - 1], now)
  }

  /** Entries are numbered in order of arrival. */
  predicate InArrivalOrder(entries: seq<Entry>) {
    forall i, j :: 0 <= i < j < |entries| ==> entries[i].arrival < entries[j].arrival
  }

  lemma InsertIsStable(entries: seq<Entry>, sorted: seq<Entry>, e: Entry, now: int)
    requires IsStableSort(entries, sorted, now) && InArrivalOrder(entries + [e])
    ensures IsStableSort(entries + [e], Insert(sorted, e, now), now)
  {
    hide Time, Position, Before;
    var p := Position(sorted, Time(e, now), now);
    OrderAscends(sorted, now);
    PositionSplits(sorted, Time(e, now), now);
    assert sorted == sorted[..p] + sorted[p..];
    forall x | x in sorted ensures x.arrival < e.arrival {
      assert x in multiset(entries);
      var i :| 0 <= i < |entries| && entries[i] == x;
      assert (entries + [e])[i] == x && (entries + [e])[|entries|] == e;
    }
    InsertKeepsOrder(sorted, e, p, now);
  }

  lemma OrderAscends(s: seq<Entry>, now: int)
    requires StableOrder(s, now)
    ensures Ascending(s, now)
  {
  }

  lemma {:induction false} SortAllIsStable(entries: seq<Entry>, now: int)
    requires InArrivalOrder(entries)
    ensures IsStableSort(entries, SortAll(entries, now), now)
  {
    hide Insert, Time;
    if entries != [] {
      var init, e := entries[..|entries| - 1], entries[|entries| - 1];
      assert entries == init + [e];
      SortAllIsStable(init, now);
      InsertIsStable(init, SortAll(init, now), e, now);
    }
  }

  lemma InsertKeepsOrder(s: seq<Entry>, e: Entry, p: nat, now: int)
    requires StableOrder(s, now) && p <= |s| && forall x <- s :: x.arrival < e.arrival
    requires forall i :: 0 <= i < p ==> Time(s[i], now) <= Time(e, now)
    requires forall i :: p <= i < |s| ==> Time(s[i], now) > Time(e, now)
    ensures StableOrder(s[..p] + [e] + s[p..], now)
  {
    var r := s[..p] + [e] + s[p..];
    forall i, j | 0 <= i < j < |r| ensures Before(r[i], r[j], now) {
      if i < p { assert r[i] == s[i] && s[i] in s; } else if i > p { assert r[i] == s[i - 1]; }
      if j < p { assert r[j] == s[j]; } else if j > p { assert r[j] == s[j - 1]; }
    }
  }

  lemma TailOrdered(s: seq<Entry>, now: int)
    requires StableOrder(s, now) && |s| > 0
    ensures StableOrder(s[1..], now)
  {
    hide Before;
  }

  lemma FirstIsLeast(s: seq<Entry>, e: Entry, now: int)
    requires StableOrder(s, now) && |s| > 0 && e in multiset(s)
    ensures e == s[0] || Before(s[0], e, now)
  {
    var i :| 0 <= i < |s| && s[i] == e;
  }

  lemma SameTails(a: seq<Entry>, b: seq<Entry>)
    requires multiset(a) == multiset(b) && |a| > 0 && |b| > 0 && a[0] == b[0]
    ensures multiset(a[1..]) == multiset(b[1..])
  {
    assert a == [a[0]] + a[1..] && b == [b[0]] + b[1..];
    assert multiset(a[1..]) == multiset(a) - multiset{a[0]};
  }

  lemma SameSize(a: seq<Entry>, b: seq<Entry>)
    requires multiset(a) == multiset(b)
    ensures |a| == |b|
  {
    assert |a| == |multiset(a)| && |b| == |multiset(b)|;
  }

  lemma SameFirst(a: seq<Entry>, b: seq<Entry>, now: int)
    requires multiset(a) == multiset(b) && StableOrder(a, now) && StableOrder(b, now) && |a| > 0 && |b| > 0
    ensures a[0] == b[0]
  {
    assert b[0] in multiset(b) && a[0] in multiset(a);
    FirstIsLeast(a, b[0], now);
    FirstIsLeast(b, a[0], now);
    hide StableOrder;
  }

  /** Two stable orders of the same entries are the same. */
  lemma {:induction false} StableSortUnique(a: seq<Entry>, b: seq<Entry>, now: int)
    requires multiset(a) == multiset(b) && StableOrder(a, now) && StableOrder(b, now)
    ensures a == b
    decreases |a|
  {
    SameSize(a, b);
    if |a| > 0 {
      SameFirst(a, b, now);
      SameTails(a, b);
      TailOrdered(a, now);
      TailOrdered(b, now);
      hide StableOrder;
      StableSortUnique(a[1..], b[1..], now);
      assert a == [a[0]] + a[1..] && b == [b[0]] + b[1..];
    }
  }

  lemma {:induction false} WindowIsLast(entries: seq<Entry>, limit: nat, now: int)
    requires limit >= 1 && InArrivalOrder(entries)
    ensures Window(entries, limit, now) == Last(SortAll(entries, now), limit)
  {
    if entries != [] {
      var init, e := entries[..|entries| - 1], entries[|entries| - 1];
      WindowIsLast(init, limit, now);
      SortAllIsStable(init, now);
      InsertIntoLast(SortAll(init, now), e, limit, now);
    }
  }

  /**
    Bounded insertion refines sorting: for every sequence of accepted entries and every limit, the window
    holds exactly the last `limit` entries of their stable sort by time, whichever way that is computed.
   */
  lemma WindowRefinesSort(entries: seq<Entry>, sorted: seq<Entry>, limit: nat, now: int)
    requires limit >= 1 && InArrivalOrder(entries) && IsStableSort(entries, sorted, now)
    ensures Window(entries, limit, now) == Last(sorted, limit)
  {
    WindowIsLast(entries, limit, now);
    SortAllIsStable(entries, now);
    StableSortUnique(SortAll(entries, now), sorted, now);
  }

  class LogView {
    const limit: nat
    const now: int
    const matches: Entry -> bool
    var results: seq<Entry>
    ghost var accepted: seq<Entry>

    ghost predicate Valid()
      reads this
    {
      limit >= 1 && InArrivalOrder(accepted) && results == Window(accepted, limit, now) && Ascending(results, now)
    }

    constructor (limit: nat, now: int, matches: Entry -> bool)
      requires limit >= 1
      ensures Valid() && accepted == [] && this.limit == limit && this.now == now && this.matches == matches
    {
      this.limit, this.now, this.matches := limit, now, matches;
      results, accepted := [], [];
    }

    /** Take one parsed line: skip it, or put it in its place and let the oldest go. */
    method Accept(entry: Option<Entry>)
      requires Valid()
      requires entry.Some? ==> forall e <- accepted :: e.arrival < entry.value.arrival
      modifies this
      ensures Valid()
      ensures accepted == if entry.Some? && matches(entry.value) then old(accepted) + [entry.value] else old(accepted)
    {
      if entry.None? || !matches(entry.value) { return; }
      var e := entry.value;
      var low := FindPlace(e);
      AcceptExtends(accepted, e, limit, now);
      hide InArrivalOrder, Ascending, Window, Position, Time;
      accepted := accepted + [e];
      results := results[..low] + [e] + results[low..];
      if |results| > limit {
        results := results[1..];
      }
    }

    /** Binary search for the place behind every entry that is not later. */
    method FindPlace(e: Entry) returns (low: nat)
      requires Ascending(results, now)
      ensures low == Position(results, Time(e, now), now)
    {
      var time, high := Time(e, now), |results|;
      low := 0;
      while low < high
        invariant 0 <= low <= high <= |results|
        invariant forall i :: 0 <= i < low ==> Time(results[i], now) <= time
        invariant forall i :: high <= i < |results| ==> Time(results[i], now) > time
      {
        var middle := (low + high) / 2;
        if Time(results[middle], now) <= time {
          low := middle + 1;
        } else {
          high := middle;
        }
      }
      PositionUnique(results, time, now, low);
    }
  }

  /** One more accepted entry. */
  lemma AcceptExtends(entries: seq<Entry>, e: Entry, limit: nat, now: int)
    requires limit >= 1 && InArrivalOrder(entries) && forall x <- entries :: x.arrival < e.arrival
    ensures InArrivalOrder(entries + [e]) && Ascending(Window(entries + [e], limit, now), now)
    ensures Window(entries + [e], limit, now) == Accepted(Window(entries, limit, now), e, limit, now)
  {
    assert (entries + [e])[..|entries|] == entries;
    assert InArrivalOrder(entries + [e]);
    WindowAscends(entries + [e], limit, now);
    hide Accepted, Ascending;
  }

  lemma WindowAscends(entries: seq<Entry>, limit: nat, now: int)
    requires limit >= 1 && InArrivalOrder(entries)
    ensures Ascending(Window(entries, limit, now), now)
  {
    WindowIsLast(entries, limit, now);
    SortAllIsStable(entries, now);
  }
}
