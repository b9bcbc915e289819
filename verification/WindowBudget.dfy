/** Rate-limit window budgets: which capacity a budget may claim, and what it then reports. */
module WindowBudget {
  import opened Wrappers
  import opened UsageWindows
  import Sums

  const FIVE_HOURS_MS := 5 * 60 * 60 * 1000
  const SEVEN_DAYS_MS := 7 * 24 * 60 * 60 * 1000

  /** Stands for events without an account among the accounts that burned. */
  const UNATTRIBUTED := " unattributed"

  /** The auto-calibrated lower bounds of one account. */
  datatype Capacity = Capacity(tokens5h: Option<int>, tokens7d: Option<int>, cost5h: Option<int>, cost7d: Option<int>)

  datatype Source = Env | ConfigFile | Observed | NoSource

  datatype Config = Config(tokens5h: Option<int>, tokens7d: Option<int>, cost5h: Option<int>, cost7d: Option<int>,
                           source: Source, observed: map<string, Capacity>)

  /** Whose budget is asked for: everybody's together, the unknown bucket's, or one account's. */
  datatype Scope = Pooled | UnknownBucket | Account(uuid: string)

  datatype Consumption = Consumption(usage: Usage, capacity: Option<int>, pct: Option<real>,
                                     capacityCost: Option<int>, pctCost: Option<real>,
                                     tokensPerMin: int, minutesLeft: Option<int>, exceeded: bool)

  datatype Budget = Budget(fiveHour: Consumption, sevenDay: Consumption, source: Source, configured: bool)

  function OrElse<T>(a: Option<T>, b: Option<T>): Option<T> {
    if a.Some? then a else b
  }

  predicate Manual(config: Config) {
    config.tokens5h.Some? || config.tokens7d.Some? || config.cost5h.Some? || config.cost7d.Some?
  }

  function Tag(e: Event): string {
    e.account.GetOr(UNATTRIBUTED)
  }

  /** The accounts that burned within a window's events. */
  function Active(window: seq<Event>): set<string> {
    set e | e in window :: Tag(e)
  }

  ghost function OnlyKey(observed: map<string, Capacity>): (uuid: string)
    requires |observed| == 1
    ensures observed.Keys == {uuid}
  {
    SingleKey(observed);
    var uuid :| observed.Keys == {uuid};
    uuid
  }

  lemma {:induction false} SingleKey(observed: map<string, Capacity>)
    requires |observed| == 1
    ensures exists uuid :: observed.Keys == {uuid}
  {
    var uuid :| uuid in observed.Keys;
    assert |observed.Keys - {uuid}| == 0;
    assert observed.Keys == {uuid};
  }

  /** The calibrated capacity this scope may use for one window, if any. */
  ghost function ObservedFor(config: Config, scope: Scope, events: seq<Event>, now: int,
                             windowMs: int): Option<Capacity> {
    if Manual(config) then None
    else match scope
      case UnknownBucket => None
      case Account(uuid) => if uuid in config.observed then Some(config.observed[uuid]) else None
      case Pooled =>
        if |config.observed| != 1 then None
        else
          var uuid, active := OnlyKey(config.observed), Active(Within(events, now - windowMs, now));
          if |active| > 1 || (|active| == 1 && uuid !in active) then None else Some(config.observed[uuid])
  }

  /** The scan that finds out who burned within the window. */
  method ActiveAccounts(events: seq<Event>, from: int, now: int) returns (active: set<string>)
    ensures active == Active(Within(events, from, now))
  {
    active := {};
    for i := 0 to |events|
      invariant active == Active(Within(events[..i], from, now))
    {
      WithinGrows(events, i, from, now);
      if events[i].ts < from || events[i].ts > now { continue; }
      active := active + {Tag(events[i])};
    }
    assert events[..|events|] == events;
  }

  method ObservedCapacityFor(config: Config, scope: Scope, events: seq<Event>, now: int, windowMs: int)
    returns (r: Option<Capacity>)
    ensures r == ObservedFor(config, scope, events, now, windowMs)
  {
    if Manual(config) { return None; }
    if scope.Pooled? {
      if |config.observed| != 1 { return None; }
      SingleKey(config.observed);
      var calibrated :| calibrated in config.observed;
      var active := ActiveAccounts(events, now - windowMs, now);
      if |active| > 1 { return None; }
      if |active| == 1 && calibrated !in active { return None; }
      return Some(config.observed[calibrated]);
    }
    if scope.Account? && scope.uuid in config.observed { return Some(config.observed[scope.uuid]); }
    return None;
  }

  lemma {:induction false} AtMostOne(active: set<string>, uuid: string)
    ensures |active| > 1 || (|active| == 1 && uuid !in active) <==> !(active <= {uuid})
  {
    if active <= {uuid} {
      assert active == {uuid} || active == {};
    } else {
      var other :| other in active && other != uuid;
      assert active == {other} + (active - {other});
      assert |active| == 1 + |active - {other}|;
      assert uuid in active ==> uuid in active - {other};
    }
  }

  /** The pooled budget claims a capacity exactly when one account alone is calibrated and burned everything there. */
  lemma {:induction false} PooledObservedIffSoleBurner(config: Config, events: seq<Event>, now: int, windowMs: int,
                                                       capacity: Capacity)
    requires UNATTRIBUTED !in config.observed
    ensures ObservedFor(config, Pooled, events, now, windowMs) == Some(capacity)
       <==> !Manual(config)
            && exists uuid :: config.observed == map[uuid := capacity]
                           && forall e :: e in Within(events, now - windowMs, now) ==> e.account == Some(uuid)
  {
    var window := Within(events, now - windowMs, now);
    if |config.observed| == 1 {
      var uuid := OnlyKey(config.observed);
      AtMostOne(Active(window), uuid);
      assert Active(window) <= {uuid} <==> forall e :: e in window ==> e.account == Some(uuid) by {
        forall e | e in window ensures Tag(e) in Active(window) && (Tag(e) == uuid <==> e.account == Some(uuid)) {}
      }
      assert config.observed == map[uuid := config.observed[uuid]];
    }
  }

  /** Minutes until `remaining` tokens are burned, rounded half up, in tenths. */
  function MinutesLeft(remaining: int, rate: int): int
    requires rate > 0
  {
    (20 * remaining + rate) / (2 * rate)
  }

  /** One window's report from its consumption and capacity. */
  function Report(usage: Usage, capacity: Option<int>, rate: int, capacityCost: Option<int>,
                  lowerBound: bool): Consumption {
    var exceeded := lowerBound
      && (if capacityCost.Some? && capacityCost.value > 0 then usage.cost > capacityCost.value
          else capacity.Some? && capacity.value > 0 && usage.tokens > capacity.value);
    Consumption(usage,
                capacity, Percent(usage.tokens, capacity), capacityCost, Percent(usage.cost, capacityCost), rate,
                if exceeded || capacity.None? then None
                else if capacity.value - usage.tokens > 0 then
                  (if rate > 0 then Some(MinutesLeft(capacity.value - usage.tokens, rate)) else None)
                else Some(0),
                exceeded)
  }

  function Percent(consumed: int, capacity: Option<int>): Option<real> {
    if capacity.Some? && capacity.value > 0 then Some(consumed as real / capacity.value as real * 100.0) else None
  }

  function Tokens5h(c: Capacity): Option<int> { c.tokens5h }
  function Tokens7d(c: Capacity): Option<int> { c.tokens7d }
  function Cost5h(c: Capacity): Option<int> { c.cost5h }
  function Cost7d(c: Capacity): Option<int> { c.cost7d }

  function FigureOf(obs: Option<Capacity>, figure: Capacity -> Option<int>): Option<int> {
    if obs.Some? then figure(obs.value) else None
  }

  predicate UserConfigured(config: Config) {
    config.source == Env || config.source == ConfigFile
  }

  ghost function WindowBudgetOf(events: seq<Event>, config: Config, rate: int, now: int, scope: Scope): Budget {
    var obs5h := ObservedFor(config, scope, events, now, FIVE_HOURS_MS);
    var obs7d := ObservedFor(config, scope, events, now, SEVEN_DAYS_MS);
    var cap5h := OrElse(config.tokens5h, FigureOf(obs5h, Tokens5h));
    var cap7d := OrElse(config.tokens7d, FigureOf(obs7d, Tokens7d));
    var cap5hCost := OrElse(config.cost5h, FigureOf(obs5h, Cost5h));
    var cap7dCost := OrElse(config.cost7d, FigureOf(obs7d, Cost7d));
    var manual := UserConfigured(config);
    Budget(Report(UsageOf(Within(events, now - FIVE_HOURS_MS, now)), cap5h, rate, cap5hCost, !manual && obs5h.Some?),
           Report(UsageOf(Within(events, now - SEVEN_DAYS_MS, now)), cap7d, rate, cap7dCost, !manual && obs7d.Some?),
           if manual then config.source else if obs5h.Some? || obs7d.Some? then Observed else NoSource,
           cap5h.Some? || cap7d.Some? || cap5hCost.Some? || cap7dCost.Some?)
  }

  method ComputeWindowBudget(events: seq<Event>, config: Config, rate: int, now: int, scope: Scope) returns (b: Budget)
    ensures b == WindowBudgetOf(events, config, rate, now, scope)
  {
    var obs5h := ObservedCapacityFor(config, scope, events, now, FIVE_HOURS_MS);
    var obs7d := ObservedCapacityFor(config, scope, events, now, SEVEN_DAYS_MS);
    var cap5h := OrElse(config.tokens5h, FigureOf(obs5h, Tokens5h));
    var cap7d := OrElse(config.tokens7d, FigureOf(obs7d, Tokens7d));
    var cap5hCost := OrElse(config.cost5h, FigureOf(obs5h, Cost5h));
    var cap7dCost := OrElse(config.cost7d, FigureOf(obs7d, Cost7d));
    var manual := UserConfigured(config);
    var used5h := WindowSum(events, now, FIVE_HOURS_MS);
    var used7d := WindowSum(events, now, SEVEN_DAYS_MS);
    b := Budget(Report(used5h, cap5h, rate, cap5hCost, !manual && obs5h.Some?),
                Report(used7d, cap7d, rate, cap7dCost, !manual && obs7d.Some?),
                if manual then config.source else if obs5h.Some? || obs7d.Some? then Observed else NoSource,
                cap5h.Some? || cap7d.Some? || cap5hCost.Some? || cap7dCost.Some?);
  }

  /** The same window figures, the projection rate aside. */
  predicate SameFill(a: Consumption, b: Consumption) {
    && a.usage == b.usage && a.capacity == b.capacity && a.pct == b.pct
    && a.capacityCost == b.capacityCost && a.pctCost == b.pctCost && a.exceeded == b.exceeded
  }

  lemma {:induction false} SoleBurnersWindow(events: seq<Event>, k: Option<string>, from: int, to: int)
    requires forall e :: e in Within(events, from, to) ==> e.account == k
    ensures Within(AccountEvents(events, k), from, to) == Within(events, from, to)
  {
    WindowOfAccount(events, k, from, to);
    GroupOfAll(Within(events, from, to), k);
  }

  lemma {:induction false} GroupOfAll(s: seq<Event>, k: Option<string>)
    requires forall e :: e in s ==> e.account == k
    ensures AccountEvents(s, k) == s
  {
    if s != [] {
      GroupOfAll(s[..|s| - 1], k);
      assert s == s[..|s| - 1] + [s[|s| - 1]];
    }
  }

  /** Where the pooled budget borrows a calibrated capacity, it reports that account's own fill. */
  lemma {:induction false} PooledReportsTheAccountsFill(events: seq<Event>, config: Config, rate: int, ownRate: int,
                                                        now: int, uuid: string)
    requires UNATTRIBUTED !in config.observed && uuid in config.observed
    ensures var pooled := WindowBudgetOf(events, config, rate, now, Pooled);
            var own := WindowBudgetOf(AccountEvents(events, Some(uuid)), config, ownRate, now, Account(uuid));
            && (ObservedFor(config, Pooled, events, now, FIVE_HOURS_MS).Some? ==>
               SameFill(pooled.fiveHour, own.fiveHour))
            && (ObservedFor(config, Pooled, events, now, SEVEN_DAYS_MS).Some? ==>
               SameFill(pooled.sevenDay, own.sevenDay))
  {
    if ObservedFor(config, Pooled, events, now, FIVE_HOURS_MS).Some? {
      BorrowedWindow(events, config, now, FIVE_HOURS_MS, uuid);
    }
    if ObservedFor(config, Pooled, events, now, SEVEN_DAYS_MS).Some? {
      BorrowedWindow(events, config, now, SEVEN_DAYS_MS, uuid);
    }
  }

  lemma {:induction false} BorrowedWindow(events: seq<Event>, config: Config, now: int, windowMs: int, uuid: string)
    requires UNATTRIBUTED !in config.observed && uuid in config.observed
    requires ObservedFor(config, Pooled, events, now, windowMs).Some?
    ensures var own := AccountEvents(events, Some(uuid));
            && Within(own, now - windowMs, now) == Within(events, now - windowMs, now)
            && ObservedFor(config, Account(uuid), own, now, windowMs)
               == ObservedFor(config, Pooled, events, now, windowMs)
  {
    PooledObservedIffSoleBurner(config, events, now, windowMs,
      ObservedFor(config, Pooled, events, now, windowMs).value);
    SoleBurnersWindow(events, Some(uuid), now - windowMs, now);
  }

  // ---- Per-account budgets ----

  datatype AccountBudget = AccountBudget(account: Option<string>, budget: Budget, events: nat)

  function ScopeOf(account: Option<string>): Scope {
    if account.Some? then Account(account.value) else UnknownBucket
  }

  const FIVE_MIN_MS := 5 * 60 * 1000

  /** The five-minute token total per minute, rounded half up. */
  function FiveMinRate(events: seq<Event>, now: int): int {
    (2 * UsageOf(Within(events, now - FIVE_MIN_MS, now)).tokens + 5) / 10
  }

  ghost function BudgetFrom(mine: seq<Event>, config: Config, now: int, account: Option<string>): AccountBudget {
    AccountBudget(account, WindowBudgetOf(mine, config, FiveMinRate(mine, now), now, ScopeOf(account)),
                  |Within(mine, now - SEVEN_DAYS_MS, now)|)
  }

  ghost function AccountBudgetOf(events: seq<Event>, config: Config, now: int, account: Option<string>): AccountBudget {
    BudgetFrom(AccountEvents(events, account), config, now, account)
  }

  method OneAccountsBudget(mine: seq<Event>, config: Config, now: int, account: Option<string>)
    returns (b: AccountBudget)
    ensures b == BudgetFrom(mine, config, now, account)
  {
    var recent := WindowSum(mine, now, FIVE_MIN_MS);
    var budget := ComputeWindowBudget(mine, config, (2 * recent.tokens + 5) / 10, now, ScopeOf(account));
    var week := WindowSum(mine, now, SEVEN_DAYS_MS);
    b := AccountBudget(account, budget, week.count);
  }

  /** The listed budgets are those of `keys`, in that order. */
  ghost predicate BudgetsOf(out: seq<AccountBudget>, keys: seq<Option<string>>, events: seq<Event>, config: Config,
                            now: int) {
    |out| == |keys| && forall i :: 0 <= i < |out| ==> out[i] == AccountBudgetOf(events, config, now, keys[i])
  }

  lemma {:induction false} BudgetsOfSnoc(out: seq<AccountBudget>, keys: seq<Option<string>>, n: nat, b: AccountBudget,
                                         events: seq<Event>, config: Config, now: int)
    requires n < |keys| && BudgetsOf(out, keys[..n], events, config, now)
             && b == AccountBudgetOf(events, config, now, keys[n])
    ensures BudgetsOf(out + [b], keys[..n + 1], events, config, now)
  {
    forall i | 0 <= i < n + 1 ensures (out + [b])[i] == AccountBudgetOf(events, config, now, keys[..n + 1][i]) {
      if i < n { assert out[i] == AccountBudgetOf(events, config, now, keys[..n][i]); }
    }
  }

  lemma {:induction false} BudgetsNameAccounts(out: seq<AccountBudget>, keys: seq<Option<string>>, events: seq<Event>,
                                               config: Config, now: int)
    requires BudgetsOf(out, keys, events, config, now)
    ensures Listed(out) == keys
  {
    forall i | 0 <= i < |out| ensures Listed(out)[i] == keys[i] {
      assert out[i].account == keys[i];
    }
  }

  function Listed(out: seq<AccountBudget>): (keys: seq<Option<string>>)
    ensures |keys| == |out| && forall i :: 0 <= i < |out| ==> keys[i] == out[i].account
  {
    seq(|out|, i requires 0 <= i < |out| => out[i].account)
  }

  /** The reported consumption of the listed budgets, added up. */
  function Together(out: seq<AccountBudget>, weekly: bool): Usage {
    if out == [] then Usage(0, 0, 0, Breakdown(0, 0, 0, 0, 0))
    else Plus((if weekly then out[0].budget.sevenDay else out[0].budget.fiveHour).usage, Together(out[1..], weekly))
  }

  lemma {:induction false} TogetherIsAccounts(out: seq<AccountBudget>, keys: seq<Option<string>>, events: seq<Event>,
                                              config: Config, now: int, weekly: bool)
    requires BudgetsOf(out, keys, events, config, now)
    ensures Together(out, weekly)
         == AccountsTogether(keys, events, now - (if weekly then SEVEN_DAYS_MS else FIVE_HOURS_MS), now)
  {
    if out != [] { TogetherIsAccounts(out[1..], keys[1..], events, config, now, weekly); }
  }

  /** One budget per account that occurs, from that account's own events. */
  method AccountBudgets(events: seq<Event>, config: Config, now: int) returns (out: seq<AccountBudget>)
    ensures Sums.Distinct(Listed(out)) && BudgetsOf(out, Listed(out), events, config, now)
    ensures forall i :: 0 <= i < |events| ==> events[i].account in Listed(out)
  {
    var keys, byAccount := SplitByAccount(events);
    out := [];
    for n := 0 to |keys|
      invariant BudgetsOf(out, keys[..n], events, config, now)
    {
      var b := OneAccountsBudget(byAccount[keys[n]], config, now, keys[n]);
      BudgetsOfSnoc(out, keys, n, b, events, config, now);
      out := out + [b];
    }
    assert keys[..|keys|] == keys;
    BudgetsNameAccounts(out, keys, events, config, now);
  }

  /** The listed budgets consume together exactly what the pooled budget reports, over 5 hours and over 7 days. */
  lemma {:induction false} BudgetsAddUpToPool(out: seq<AccountBudget>, events: seq<Event>, config: Config, now: int,
                                              rate: int)
    requires Sums.Distinct(Listed(out)) && BudgetsOf(out, Listed(out), events, config, now)
    requires forall i :: 0 <= i < |events| ==> events[i].account in Listed(out)
    ensures Together(out, false) == WindowBudgetOf(events, config, rate, now, Pooled).fiveHour.usage
    ensures Together(out, true) == WindowBudgetOf(events, config, rate, now, Pooled).sevenDay.usage
  {
    TogetherIsAccounts(out, Listed(out), events, config, now, false);
    TogetherIsAccounts(out, Listed(out), events, config, now, true);
    AccountsAddUpToPool(Listed(out), events, now - FIVE_HOURS_MS, now);
    AccountsAddUpToPool(Listed(out), events, now - SEVEN_DAYS_MS, now);
  }

  // ---- What an observed lower bound may say ----

  /** A window counts as falsifying its bound exactly when the percentage that decides is above 100. */
  lemma {:induction false} ExceededIffAboveHundred(usage: Usage, capacity: Option<int>, rate: int,
                                                   capacityCost: Option<int>)
    ensures var c := Report(usage, capacity, rate, capacityCost, true);
            c.exceeded <==> OrElse(c.pctCost, c.pct).Some? && OrElse(c.pctCost, c.pct).value > 100.0
  {
    if capacity.Some? && capacity.value > 0 { AboveHundred(usage.tokens, capacity.value); }
    if capacityCost.Some? && capacityCost.value > 0 { AboveHundred(usage.cost, capacityCost.value); }
  }

  lemma {:induction false} AboveHundred(consumed: int, capacity: int)
    requires capacity > 0
    ensures consumed as real / capacity as real * 100.0 > 100.0 <==> consumed > capacity
  {
    var q, k := consumed as real / capacity as real, capacity as real;
    assert q * k == consumed as real;
    if q > 1.0 {
      assert (q - 1.0) * k > 0.0;
    } else {
      assert (1.0 - q) * k >= 0.0;
    }
  }

  lemma {:induction false} RoundsToNearest(remaining: int, rate: int)
    requires rate > 0
    ensures var tenths := MinutesLeft(remaining, rate);
            (2 * tenths - 1) * rate <= 20 * remaining < (2 * tenths + 1) * rate
  {
    var tenths := MinutesLeft(remaining, rate);
    assert 20 * remaining + rate == 2 * rate * tenths + (20 * remaining + rate) % (2 * rate);
  }

  lemma {:induction false} ZeroMinutesIff(remaining: int, rate: int)
    requires remaining > 0 && rate > 0
    ensures MinutesLeft(remaining, rate) == 0 <==> 20 * remaining < rate
  {
    var tenths := MinutesLeft(remaining, rate);
    RoundsToNearest(remaining, rate);
    if tenths >= 1 {
      assert (2 * tenths - 1) * rate >= rate;
    }
  }

  /**
   * A spent lower bound should say nothing about the time left. "0 minutes" is reported exactly when the comparison
   * that decides does not pass, and the tokens have reached their bound or are less than half a tenth of a minute from
   * it: so it is said of a spent bound when the cost stays within its own.
   */
  lemma {:induction false} SpentBoundSaysZeroIff(usage: Usage, capacity: Option<int>, rate: int,
                                                 capacityCost: Option<int>)
    ensures Report(usage, capacity, rate, capacityCost, true).minutesLeft == Some(0)
       <==> && capacity.Some?
            && (if capacityCost.Some? && capacityCost.value > 0 then usage.cost <= capacityCost.value
                else usage.tokens <= capacity.value || capacity.value <= 0)
            && (usage.tokens >= capacity.value || (rate > 0 && 20 * (capacity.value - usage.tokens) < rate))
  {
    if capacity.Some? && usage.tokens < capacity.value && rate > 0 {
      ZeroMinutesIff(capacity.value - usage.tokens, rate);
    }
  }

  /** One such window: 150 tokens on a bound of 100, cost 5 on a bound of 10. */
  lemma SpentBoundSaysZeroWitness()
    ensures var usage := Usage(150, 5, 1, Breakdown(0, 0, 0, 0, 150));
            var c := Report(usage, Some(100), 60, Some(10), true);
            c.usage.tokens > 100 && !c.exceeded && c.minutesLeft == Some(0)
  {}

  /** A bound with a token left may be reported so too: one second at this rate. */
  lemma NearlySpentSaysZero()
    ensures Report(Usage(99, 5, 1, Breakdown(0, 0, 0, 0, 99)), Some(100), 60, Some(10), true).minutesLeft == Some(0)
  {}
}
