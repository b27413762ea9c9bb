/**
  What an account has cost today: the residual rule that joins exact costs with token pricing, and the
  per-account and batch readers built on it.
 */
module AccountCost {
  import opened Options

  datatype Counts = Counts(input: int, output: int, cacheCreate: int, cacheRead: int, eph5m: int, eph1h: int)

  /** The day's hash of one account and model; `cost` is absent until an amount above zero is added. */
  datatype Usage = Usage(total: Counts, costed: Counts, cost: Option<real>)

  /** What the price calculator is asked about; `split` is present when a cache lifetime has tokens. */
  datatype Bill = Bill(input: int, output: int, cacheCreate: int, cacheRead: int, split: Option<(int, int)>)

  type Prices = (Bill, string) -> real

  const NONE := Counts(0, 0, 0, 0, 0, 0)
  const EMPTY := Usage(NONE, NONE, None)

  function Plus(a: Counts, b: Counts): Counts {
    Counts(a.input + b.input, a.output + b.output, a.cacheCreate + b.cacheCreate, a.cacheRead + b.cacheRead,
           a.eph5m + b.eph5m, a.eph1h + b.eph1h)
  }

  function Excess(total: int, costed: int): int { if total > costed then total - costed else 0 }

  /** The tokens that no exact cost covers; a negative remainder is damaged data and counts as none. */
  function Residual(u: Usage): Counts {
    Counts(Excess(u.total.input, u.costed.input), Excess(u.total.output, u.costed.output),
           Excess(u.total.cacheCreate, u.costed.cacheCreate), Excess(u.total.cacheRead, u.costed.cacheRead),
           Excess(u.total.eph5m, u.costed.eph5m), Excess(u.total.eph1h, u.costed.eph1h))
  }

  predicate HasCoreTokens(c: Counts) {
    c.input != 0 || c.output != 0 || c.cacheCreate != 0 || c.cacheRead != 0
  }

  function BillFor(c: Counts): Bill {
    Bill(c.input, c.output, c.cacheCreate, c.cacheRead,
         if c.eph5m > 0 || c.eph1h > 0 then Some((c.eph5m, c.eph1h)) else None)
  }

  function StoredCost(u: Usage): real {
    if u.cost.Some? && u.cost.value > 0.0 then u.cost.value else 0.0
  }

  function Resolve(prices: Prices, usage: Option<Usage>, model: string): real {
    match usage
    case None => 0.0
    case Some(u) =>
      var rest := Residual(u);
      if HasCoreTokens(rest) then StoredCost(u) + prices(BillFor(rest), model) else StoredCost(u)
  }

  /** Together with the tokens that have an exact cost these are at least all. */
  predicate Covers(u: Usage, rest: Counts) {
    && u.costed.input + rest.input >= u.total.input && u.costed.output + rest.output >= u.total.output
    && u.costed.cacheCreate + rest.cacheCreate >= u.total.cacheCreate
    && u.costed.cacheRead + rest.cacheRead >= u.total.cacheRead
    && u.costed.eph5m + rest.eph5m >= u.total.eph5m && u.costed.eph1h + rest.eph1h >= u.total.eph1h
  }

  predicate AtMost(a: Counts, b: Counts) {
    && a.input <= b.input && a.output <= b.output && a.cacheCreate <= b.cacheCreate && a.cacheRead <= b.cacheRead
    && a.eph5m <= b.eph5m && a.eph1h <= b.eph1h
  }

  /**
    Damaged records, too: what is priced by tokens is never negative, and no more than it takes to cover the
    rest; a stored cost that is not above zero counts as none.
   */
  lemma DamagedRecords(u: Usage, other: Counts)
    ensures Natural(Residual(u)) && Covers(u, Residual(u))
    ensures Natural(other) && Covers(u, other) ==> AtMost(Residual(u), other)
    ensures StoredCost(u) >= 0.0 && (u.cost.Some? && u.cost.value > 0.0 ==> StoredCost(u) == u.cost.value)
    ensures u.cost.None? || u.cost.value <= 0.0 ==> StoredCost(u) == 0.0
  {
  }

  // ---- The writer's side ----

  /** One recorded request: its tokens and, when the caller has priced it, the exact cost (zero is a price). */
  datatype Increment = Increment(tokens: Counts, exact: Option<real>)

  predicate Natural(c: Counts) {
    c.input >= 0 && c.output >= 0 && c.cacheCreate >= 0 && c.cacheRead >= 0 && c.eph5m >= 0 && c.eph1h >= 0
  }

  function Amount(cost: Option<real>): real {
    match cost
    case None => 0.0
    case Some(amount) => amount
  }

  function Charged(amount: real): real { if amount > 0.0 then amount else 0.0 }

  function Add(u: Usage, i: Increment): Usage {
    match i.exact
    case None => u.(total := Plus(u.total, i.tokens))
    case Some(amount) =>
      Usage(Plus(u.total, i.tokens), Plus(u.costed, i.tokens),
            if amount > 0.0 then Some(Amount(u.cost) + amount) else u.cost)
  }

  function Recorded(increments: seq<Increment>): Usage {
    if increments == [] then EMPTY else Add(Recorded(increments[..|increments| - 1]), increments[|increments| - 1])
  }

  /** The reference: the sum of the exact costs, and the tokens of the requests that have none. */
  function ExactCost(increments: seq<Increment>): real {
    if increments == [] then 0.0
    else ExactCost(increments[..|increments| - 1]) + Charged(Amount(increments[|increments| - 1].exact))
  }

  function UncostedTokens(increments: seq<Increment>): Counts {
    if increments == [] then NONE
    else
      var rest := UncostedTokens(increments[..|increments| - 1]);
      var i := increments[|increments| - 1];
      if i.exact.None? then Plus(rest, i.tokens) else rest
  }

  /** The tokens of a record are the priced ones and the open ones. */
  ghost predicate Divides(u: Usage, open: Counts) {
    Plus(u.costed, open) == u.total && Natural(open)
  }

  lemma AddDivides(u: Usage, open: Counts, i: Increment)
    requires Divides(u, open) && Natural(i.tokens)
    ensures Divides(Add(u, i), if i.exact.None? then Plus(open, i.tokens) else open)
  {
    hide Amount;
  }

  lemma ResidualIsOpen(u: Usage, open: Counts)
    requires Divides(u, open)
    ensures Residual(u) == open
  {
  }

  lemma {:induction false} RecordedDivides(increments: seq<Increment>)
    requires forall i <- increments :: Natural(i.tokens)
    ensures Divides(Recorded(increments), UncostedTokens(increments))
  {
    if increments == [] {
      assert Divides(EMPTY, NONE);
    } else {
      var init, i := increments[..|increments| - 1], increments[|increments| - 1];
      RecordedDivides(init);
      AddDivides(Recorded(init), UncostedTokens(init), i);
      hide Divides, Add, Plus, Natural;
    }
  }

  lemma {:induction false} RecordedCost(increments: seq<Increment>)
    ensures Amount(Recorded(increments).cost) == ExactCost(increments) >= 0.0
  {
    hide Plus;
    if increments != [] { RecordedCost(increments[..|increments| - 1]); }
  }

  /**
    However priced and unpriced requests are mixed in one record, the resolved cost is the sum of the exact
    costs plus the price of exactly the unpriced tokens. The sum misses that price in one case only: the
    unpriced requests have nothing but cache-lifetime tokens, and these have a price.
   */
  lemma ResolvedCost(prices: Prices, increments: seq<Increment>, model: string)
    requires forall i <- increments :: Natural(i.tokens)
    ensures var open := UncostedTokens(increments);
            var resolved := Resolve(prices, Some(Recorded(increments)), model);
            && (HasCoreTokens(open) ==> resolved == ExactCost(increments) + prices(BillFor(open), model))
            && (!HasCoreTokens(open) ==> resolved == ExactCost(increments))
            && (resolved == ExactCost(increments) + prices(BillFor(open), model)
                <==> HasCoreTokens(open) || prices(BillFor(open), model) == 0.0)
  {
    hide Recorded, UncostedTokens, ExactCost, Residual, Divides, BillFor, Natural, Resolve, StoredCost, HasCoreTokens;
    RecordedDivides(increments);
    ResidualIsOpen(Recorded(increments), UncostedTokens(increments));
    RecordedCost(increments);
    Stored(Recorded(increments));
    ResolveUnfolds(prices, Recorded(increments), model);
  }

  lemma Stored(u: Usage)
    requires Amount(u.cost) >= 0.0
    ensures StoredCost(u) == Amount(u.cost)
  {
  }

  lemma ResolveUnfolds(prices: Prices, u: Usage, model: string)
    ensures Resolve(prices, Some(u), model)
         == StoredCost(u) + if HasCoreTokens(Residual(u)) then prices(BillFor(Residual(u)), model) else 0.0
  {
    hide Residual, HasCoreTokens, StoredCost, BillFor;
  }

  /** No later price list changes what a priced request cost, free requests included. */
  lemma PricedOnce(before: Prices, after: Prices, increments: seq<Increment>, model: string)
    requires forall i <- increments :: Natural(i.tokens) && i.exact.Some?
    ensures Resolve(before, Some(Recorded(increments)), model) == Resolve(after, Some(Recorded(increments)), model)
            == ExactCost(increments)
  {
    NothingOpen(increments);
    ResolvedCost(before, increments, model);
    ResolvedCost(after, increments, model);
  }

  lemma {:induction false} NothingOpen(increments: seq<Increment>)
    requires forall i <- increments :: i.exact.Some?
    ensures UncostedTokens(increments) == NONE
  {
    if increments != [] { NothingOpen(increments[..|increments| - 1]); }
  }

  /** How many tokens of one kind the requests without an exact cost have. */
  function OpenTokens(increments: seq<Increment>, kind: Counts -> int): int {
    if increments == [] then 0
    else (if increments[0].exact.None? then kind(increments[0].tokens) else 0) + OpenTokens(increments[1..], kind)
  }

  ghost predicate Additive(kind: Counts -> int) {
    kind(NONE) == 0 && forall a, b :: kind(Plus(a, b)) == kind(a) + kind(b)
  }

  lemma {:induction false} OpenLast(increments: seq<Increment>, i: Increment, kind: Counts -> int)
    ensures OpenTokens(increments + [i], kind)
         == OpenTokens(increments, kind) + if i.exact.None? then kind(i.tokens) else 0
  {
    if increments == [] {
      assert increments + [i] == [i];
    } else {
      assert (increments + [i])[1..] == increments[1..] + [i];
      OpenLast(increments[1..], i, kind);
    }
  }

  lemma {:induction false} OpenIsUncosted(increments: seq<Increment>, kind: Counts -> int)
    requires Additive(kind)
    ensures kind(UncostedTokens(increments)) == OpenTokens(increments, kind)
  {
    hide Plus;
    if increments != [] {
      var init, last := increments[..|increments| - 1], increments[|increments| - 1];
      OpenIsUncosted(init, kind);
      OpenLast(init, last, kind);
      assert increments == init + [last];
    }
  }

  /** What is priced by tokens: for each kind, the tokens of the unpriced requests together. */
  function OpenBill(increments: seq<Increment>): Bill {
    var short, long := OpenTokens(increments, (c: Counts) => c.eph5m), OpenTokens(increments, (c: Counts) => c.eph1h);
    Bill(OpenTokens(increments, (c: Counts) => c.input), OpenTokens(increments, (c: Counts) => c.output),
         OpenTokens(increments, (c: Counts) => c.cacheCreate), OpenTokens(increments, (c: Counts) => c.cacheRead),
         if short > 0 || long > 0 then Some((short, long)) else None)
  }

  /** What an account should pay for the requests of one record. */
  function Due(prices: Prices, increments: seq<Increment>, model: string): real {
    var bill := OpenBill(increments);
    ExactCost(increments)
    + if bill.input != 0 || bill.output != 0 || bill.cacheCreate != 0 || bill.cacheRead != 0 then prices(bill, model)
      else 0.0
  }

  lemma OpenBillIsBilled(increments: seq<Increment>)
    ensures OpenBill(increments) == BillFor(UncostedTokens(increments))
  {
    hide UncostedTokens, OpenTokens;
    OpenIsUncosted(increments, (c: Counts) => c.input);
    OpenIsUncosted(increments, (c: Counts) => c.output);
    OpenIsUncosted(increments, (c: Counts) => c.cacheCreate);
    OpenIsUncosted(increments, (c: Counts) => c.cacheRead);
    OpenIsUncosted(increments, (c: Counts) => c.eph5m);
    OpenIsUncosted(increments, (c: Counts) => c.eph1h);
  }

  /** A record resolves to what is due for the requests recorded in it, kind of token by kind of token. */
  lemma ResolvedIsDue(prices: Prices, increments: seq<Increment>, model: string)
    requires forall i <- increments :: Natural(i.tokens)
    ensures Resolve(prices, Some(Recorded(increments)), model) == Due(prices, increments, model)
  {
    hide Recorded, ExactCost, UncostedTokens, OpenBill, Resolve, Natural;
    ResolvedCost(prices, increments, model);
    OpenBillIsBilled(increments);
  }

  // ---- The readers ----

  type Records = (string, string) -> Option<Usage>

  predicate StartsWith(s: string, prefix: string) { prefix <= s }

  /** The models listed for one account; an index entry is the account id, a colon and the model. */
  function ModelsOf(index: seq<string>, account: string): seq<string> {
    if index == [] then []
    else
      var rest := ModelsOf(index[..|index| - 1], account);
      var entry := index[|index| - 1];
      if StartsWith(entry, account + ":") then rest + [entry[|account| + 1..]] else rest
  }

  /** The models read off the index: as often as, and in the order in which, the account has entries with them. */
  lemma {:induction false} ModelsListed(index: seq<string>, account: string, model: string)
    ensures model in ModelsOf(index, account) <==> account + ":" + model in index
    ensures multiset(ModelsOf(index, account))[model] == multiset(index)[account + ":" + model]
  {
    if index != [] {
      var init, entry := index[..|index| - 1], index[|index| - 1];
      assert index == init + [entry];
      ModelsListed(init, account, model);
      EntryNames(entry, account, model);
    }
  }

  lemma EntryNames(entry: string, account: string, model: string)
    ensures entry == account + ":" + model <==> StartsWith(entry, account + ":") && entry[|account| + 1..] == model
  {
    if StartsWith(entry, account + ":") { assert entry == entry[..|account| + 1] + entry[|account| + 1..]; }
    if entry == account + ":" + model { assert entry[..|account| + 1] == account + ":"; }
  }

  function SumOf(prices: Prices, records: Records, account: string, models: seq<string>): real {
    if models == [] then 0.0
    else
      var model := models[|models| - 1];
      SumOf(prices, records, account, models[..|models| - 1]) + Resolve(prices, records(account, model), model)
  }

  function DailyCost(prices: Prices, records: Records, index: seq<string>, account: string): real {
    SumOf(prices, records, account, ModelsOf(index, account))
  }

  /** The position of the first colon. */
  function ColonAt(s: string): (at: Option<nat>)
    ensures at.None? <==> ':' !in s
    ensures at.Some? ==> at.value < |s| && s[at.value] == ':' && ':' !in s[..at.value]
  {
    if s == "" then None
    else if s[0] == ':' then Some(0)
    else
      match ColonAt(s[1..])
      case None => None
      case Some(at) => assert s[..at + 1] == [s[0]] + s[1..][..at]; Some(at + 1)
  }

  lemma {:induction false} ColonAfter(account: string, model: string)
    requires ':' !in account
    ensures ColonAt(account + ":" + model) == Some(|account|)
  {
    if account == "" {
      assert account + ":" + model == ":" + model;
    } else {
      ColonAfter(account[1..], model);
      assert (account + ":" + model)[1..] == account[1..] + ":" + model;
    }
  }

  /** For an id without a colon, cutting at the first colon and matching the prefix pick the same entries. */
  lemma PrefixIsCut(entry: string, account: string)
    requires ':' !in account
    ensures StartsWith(entry, account + ":") <==> ColonAt(entry).Some? && entry[..ColonAt(entry).value] == account
  {
    var at := ColonAt(entry);
    assert at.Some? ==> entry[..at.value + 1] == entry[..at.value] + ":";
    if StartsWith(entry, account + ":") {
      assert entry == account + ":" + entry[|account| + 1..];
      ColonAfter(account, entry[|account| + 1..]);
    }
  }

  method GetAccountDailyCost(prices: Prices, records: Records, index: seq<string>, account: string)
      returns (total: real)
    ensures total == DailyCost(prices, records, index, account)
  {
    var models := [];
    for k := 0 to |index|
      invariant models == ModelsOf(index[..k], account)
    {
      assert index[..k + 1][..k] == index[..k];
      if StartsWith(index[k], account + ":") {
        models := models + [index[k][|account| + 1..]];
      }
    }
    assert index[..|index|] == index;
    total := 0.0;
    for k := 0 to |models|
      invariant total == SumOf(prices, records, account, models[..k])
    {
      assert models[..k + 1][..k] == models[..k];
      total := total + Resolve(prices, records(account, models[k]), models[k]);
    }
    assert models[..|models|] == models;
  }

  datatype Query = Query(account: string, model: string)

  function PickModels(queries: seq<Query>, account: string): seq<string> {
    if queries == [] then []
    else
      var rest := PickModels(queries[..|queries| - 1], account);
      var q := queries[|queries| - 1];
      if q.account == account then rest + [q.model] else rest
  }

  lemma PickOne(queries: seq<Query>, q: Query, account: string)
    ensures PickModels(queries + [q], account)
         == (if q.account == account then PickModels(queries, account) + [q.model] else PickModels(queries, account))
  {
    assert (queries + [q])[..|queries|] == queries;
  }

  function ModelsIn(groups: map<string, seq<string>>, account: string): seq<string> {
    if account in groups then groups[account] else []
  }

  ghost predicate Ordered(groups: map<string, seq<string>>, order: seq<string>) {
    && (forall a <- order :: a in groups) && (forall a <- groups :: a in order)
    && (forall i, j :: 0 <= i < j < |order| ==> order[i] != order[j])
  }

  /** The models of an account among the first entries, as the grouping sees them. */
  function Grouped(index: seq<string>, account: string): seq<string> {
    if ':' in account then [] else ModelsOf(index, account)
  }

  method AddToGroup(groups: map<string, seq<string>>, order: seq<string>, account: string, model: string)
    returns (grown: map<string, seq<string>>, order': seq<string>)
    requires Ordered(groups, order)
    ensures Ordered(grown, order') && grown.Keys == groups.Keys + {account}
    ensures forall a ::
              ModelsIn(grown, a) == if a == account then ModelsIn(groups, a) + [model] else ModelsIn(groups, a)
  {
    grown, order' := groups, order;
    if account !in groups {
      grown, order' := groups[account := []], order + [account];
    }
    grown := grown[account := grown[account] + [model]];
  }

  /** Group the index entries of the wanted accounts, in order of first appearance. */
  method GroupEntries(index: seq<string>, wanted: set<string>)
      returns (groups: map<string, seq<string>>, order: seq<string>)
    ensures groups.Keys <= wanted && Ordered(groups, order)
    ensures forall a <- wanted :: ModelsIn(groups, a) == Grouped(index, a)
  {
    hide Ordered, Grouped, ModelsIn, ColonAt;
    groups, order := map[], [];
    NothingGrouped();
    assert index[..0] == [];
    for k := 0 to |index|
      invariant groups.Keys <= wanted && Ordered(groups, order)
      invariant forall a <- wanted :: ModelsIn(groups, a) == Grouped(index[..k], a)
    {
      var entry := index[k];
      var colon := ColonAt(entry);
      forall a
        ensures Grouped(index[..k + 1], a)
             == (if colon.Some? && entry[..colon.value] == a then Grouped(index[..k], a) + [entry[colon.value + 1..]]
                 else Grouped(index[..k], a))
      {
        GroupedGrows(index, k, a);
      }
      if colon.Some? && entry[..colon.value] in wanted {
        groups, order := AddToGroup(groups, order, entry[..colon.value], entry[colon.value + 1..]);
      }
    }
    assert index[..|index|] == index;
  }

  lemma NothingGrouped()
    ensures forall a :: ModelsIn(map[], a) == Grouped([], a)
    ensures Ordered(map[], [])
  {
  }

  lemma GroupedGrows(index: seq<string>, k: nat, a: string)
    requires k < |index|
    ensures var colon := ColonAt(index[k]);
            Grouped(index[..k + 1], a) == if colon.Some? && index[k][..colon.value] == a
                                          then Grouped(index[..k], a) + [index[k][colon.value + 1..]]
                                          else Grouped(index[..k], a)
  {
    assert index[..k + 1][..k] == index[..k];
    if ':' !in a { PrefixIsCut(index[k], a); }
    hide ColonAt;
  }

  /** One query for every model of every group. */
  method ListQueries(groups: map<string, seq<string>>, order: seq<string>) returns (queries: seq<Query>)
    requires Ordered(groups, order)
    ensures forall q <- queries :: q.account in groups
    ensures forall a :: PickModels(queries, a) == ModelsIn(groups, a)
  {
    hide PickModels;
    queries := [];
    NothingPicked();
    for i := 0 to |order|
      invariant forall q <- queries :: q.account in groups
      invariant forall a :: PickModels(queries, a) == if a in order[..i] then ModelsIn(groups, a) else []
    {
      var account := order[i];
      var models := groups[account];
      ghost var earlier := queries;
      assert account !in order[..i];
      for j := 0 to |models|
        invariant forall q <- queries :: q.account in groups
        invariant forall a :: PickModels(queries, a) == if a == account then models[..j] else PickModels(earlier, a)
      {
        var q := Query(account, models[j]);
        forall a
          ensures PickModels(queries + [q], a) == if a == account then models[..j + 1] else PickModels(earlier, a)
        {
          PickOne(queries, q, a);
        }
        queries := queries + [q];
      }
      assert models[..|models|] == models;
    }
  }

  lemma NothingPicked()
    ensures forall a :: PickModels([], a) == []
  {
  }

  lemma SumNext(prices: Prices, records: Records, account: string, models: seq<string>, model: string)
    ensures SumOf(prices, records, account, models + [model])
         == SumOf(prices, records, account, models) + Resolve(prices, records(account, model), model)
  {
    hide Resolve;
    assert (models + [model])[..|models|] == models;
  }

  lemma NothingSummed(prices: Prices, records: Records)
    ensures forall a :: SumOf(prices, records, a, []) == 0.0
  {
  }

  /** Add up the replies, each on its own account. */
  method AddReplies(prices: Prices, records: Records, queries: seq<Query>, zeros: map<string, real>)
      returns (costs: map<string, real>)
    requires (forall a <- zeros :: zeros[a] == 0.0) && (forall q <- queries :: q.account in zeros)
    ensures costs.Keys == zeros.Keys
    ensures forall a <- costs :: costs[a] == SumOf(prices, records, a, PickModels(queries, a))
  {
    hide PickModels, SumOf, Resolve;
    costs := zeros;
    NothingPicked();
    NothingSummed(prices, records);
    for k := 0 to |queries|
      invariant costs.Keys == zeros.Keys
      invariant forall a <- costs :: costs[a] == SumOf(prices, records, a, PickModels(queries[..k], a))
    {
      var q := queries[k];
      assert queries[..k + 1] == queries[..k] + [q];
      forall a
        ensures PickModels(queries[..k + 1], a)
             == (if q.account == a then PickModels(queries[..k], a) + [q.model] else PickModels(queries[..k], a))
      {
        PickOne(queries[..k], q, a);
      }
      SumNext(prices, records, q.account, PickModels(queries[..k], q.account), q.model);
      costs := costs[q.account := costs[q.account] + Resolve(prices, records(q.account, q.model), q.model)];
    }
    assert queries[..|queries|] == queries;
  }

  lemma NoModels(prices: Prices, records: Records, account: string)
    ensures SumOf(prices, records, account, []) == 0.0
  {
  }

  /**
    The grouped batch reports for every account what the per-account reader reports, except for an account
    id with a colon: its entries are cut at that colon and it gets nothing. With an empty index every
    account falls back to the key scan, whose failures leave a zero.
   */
  method BatchGetAccountDailyCost(prices: Prices, records: Records, index: seq<string>, accounts: seq<string>,
                                  fallback: string -> Option<real>) returns (costs: map<string, real>)
    ensures costs.Keys == set a | a in accounts
    ensures index != [] ==>
              forall a <- costs :: costs[a] == if ':' in a then 0.0 else DailyCost(prices, records, index, a)
    ensures index == [] ==> forall a <- costs :: costs[a] == fallback(a).GetOr(0.0)
  {
    hide Ordered, SumOf, ModelsOf, Resolve, ModelsIn, PickModels;
    if accounts == [] { return map[]; }
    var wanted := set a | a in accounts;
    var groups, order := GroupEntries(index, wanted);
    costs := map a | a in wanted :: 0.0;
    if index == [] {
      for k := 0 to |accounts|
        invariant costs.Keys == wanted
        invariant forall a <- costs :: costs[a] == if a in accounts[..k] then fallback(a).GetOr(0.0) else 0.0
      {
        if fallback(accounts[k]).Some? {
          costs := costs[accounts[k] := fallback(accounts[k]).value];
        }
      }
      return;
    }
    var queries := ListQueries(groups, order);
    costs := AddReplies(prices, records, queries, costs);
    forall a | a in costs ensures costs[a] == if ':' in a then 0.0 else DailyCost(prices, records, index, a) {
      NoModels(prices, records, a);
    }
  }

  lemma ListsOne(account: string, model: string)
    ensures ModelsOf([account + ":" + model], account) == [model]
  {
    var index := [account + ":" + model];
    assert index[..0] == [];
    assert StartsWith(index[0], account + ":") && index[0][|account| + 1..] == model;
  }

  lemma SumsOne(prices: Prices, records: Records, account: string, model: string)
    ensures SumOf(prices, records, account, [model]) == Resolve(prices, records(account, model), model)
  {
    hide Resolve;
    assert [model][..0] == [];
    NoModels(prices, records, account);
  }

  /** An account whose id has a colon: the per-account reader charges it, the grouping cannot see it. */
  lemma ColonIdLost(prices: Prices, records: Records, account: string, model: string, amount: real)
    requires ':' in account && amount > 0.0
    requires records(account, model) == Some(Usage(NONE, NONE, Some(amount)))
    ensures DailyCost(prices, records, [account + ":" + model], account) == amount
    ensures Grouped([account + ":" + model], account) == []
  {
    ListsOne(account, model);
    SumsOne(prices, records, account, model);
    StoredOnly(prices, amount, model);
    hide ModelsOf, SumOf, Resolve;
  }

  lemma StoredOnly(prices: Prices, amount: real, model: string)
    requires amount > 0.0
    ensures Resolve(prices, Some(Usage(NONE, NONE, Some(amount))), model) == amount
  {
    hide BillFor;
  }

  // ---- What an account pays ----

  /** The stored records: one for each account and model with any request. */
  ghost predicate Stores(records: Records, requests: (string, string) -> seq<Increment>) {
    forall a, m :: records(a, m) == if requests(a, m) == [] then None else Some(Recorded(requests(a, m)))
  }

  function DueFor(prices: Prices, requests: (string, string) -> seq<Increment>, account: string,
                  models: seq<string>): real {
    if models == [] then 0.0
    else Due(prices, requests(account, models[0]), models[0]) + DueFor(prices, requests, account, models[1..])
  }

  lemma {:induction false} DueLast(prices: Prices, requests: (string, string) -> seq<Increment>, account: string,
                                   models: seq<string>, model: string)
    ensures DueFor(prices, requests, account, models + [model])
         == DueFor(prices, requests, account, models) + Due(prices, requests(account, model), model)
  {
    hide Due;
    if models == [] {
      assert models + [model] == [model];
    } else {
      assert (models + [model])[1..] == models[1..] + [model];
      DueLast(prices, requests, account, models[1..], model);
    }
  }

  lemma NothingDue(prices: Prices, model: string)
    ensures Due(prices, [], model) == 0.0
  {
  }

  lemma {:induction false} SumIsDue(prices: Prices, records: Records, requests: (string, string) -> seq<Increment>,
                                    account: string, models: seq<string>)
    requires Stores(records, requests) && forall a, m, i :: i in requests(a, m) ==> Natural(i.tokens)
    ensures SumOf(prices, records, account, models) == DueFor(prices, requests, account, models)
  {
    hide Resolve, Due, Recorded, Natural;
    if models != [] {
      var init, model := models[..|models| - 1], models[|models| - 1];
      SumIsDue(prices, records, requests, account, init);
      DueLast(prices, requests, account, init, model);
      assert models == init + [model];
      NothingDue(prices, model);
      MissingIsFree(prices, model);
      ResolvedIsDue(prices, requests(account, model), model);
    }
  }

  lemma MissingIsFree(prices: Prices, model: string)
    ensures Resolve(prices, None, model) == 0.0
  {
  }

  /**
    The daily cost of an account is what is due for its requests: over the models that the index lists for
    it, the exact costs and the price of the tokens that have none, whatever was recorded in which order.
   */
  lemma AccountPays(prices: Prices, records: Records, requests: (string, string) -> seq<Increment>,
                    index: seq<string>, account: string)
    requires Stores(records, requests) && forall a, m, i :: i in requests(a, m) ==> Natural(i.tokens)
    ensures DailyCost(prices, records, index, account) == DueFor(prices, requests, account, ModelsOf(index, account))
  {
    SumIsDue(prices, records, requests, account, ModelsOf(index, account));
  }
}
