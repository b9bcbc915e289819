/** What the window figures and budgets are, field by field: which events count, and which cap goes with which window.
    */
module BudgetFigures {
  import opened Wrappers
  import opened UsageWindows
  import opened WindowBudget

  // ---- Which events count, and as what ----

  /** Any of the four bucket fields is given. */
  predicate Itemised(e: Event) {
    e.input.Some? || e.output.Some? || e.cacheRead.Some? || e.cacheCreate.Some?
  }

  function Given(n: Option<int>): int {
    if n.Some? then n.value else 0
  }

  /**
   * One more event changes the figures of a window exactly when it is stamped inside, both ends included. Tokens and
   * cost rise by its own; each bucket by its own field when any is given, and otherwise only the unknown one, by its
   * tokens.
   */
  lemma {:induction false} OneMoreEvent(events: seq<Event>, e: Event, from: int, to: int)
    ensures var u, after := UsageOf(Within(events, from, to)), UsageOf(Within(events + [e], from, to));
            var b, b' := u.breakdown, after.breakdown;
            if e.ts < from || e.ts > to then after == u
            else
              && after.tokens == u.tokens + e.tokens && after.cost == u.cost + e.cost && after.count == u.count + 1
              && (Itemised(e) ==>
                    && b'.input == b.input + Given(e.input) && b'.output == b.output + Given(e.output)
                    && b'.cacheRead == b.cacheRead + Given(e.cacheRead)
                    && b'.cacheCreate == b.cacheCreate + Given(e.cacheCreate) && b'.unknown == b.unknown)
              && (!Itemised(e) ==> b' == b.(unknown := b.unknown + e.tokens))
    ensures UsageOf(Within([], from, to)) == Usage(0, 0, 0, Breakdown(0, 0, 0, 0, 0))
  {
    assert (events + [e])[..|events|] == events;
    if from <= e.ts <= to {
      UsageGrows(Within(events, from, to), e);
    } else {
      assert Within(events, from, to) + [] == Within(events, from, to);
    }
  }

  /** An account's events are those that carry it, in order. */
  lemma {:induction false} OneMoreOfAccount(events: seq<Event>, e: Event, k: Option<string>)
    ensures AccountEvents(events + [e], k)
         == if e.account == k then AccountEvents(events, k) + [e] else AccountEvents(events, k)
    ensures AccountEvents([], k) == []
  {
    assert (events + [e])[..|events|] == events;
  }

  // ---- Which cap goes with which window ----

  /** The user set a cap of any kind. */
  predicate AnyCapSet(config: Config) {
    !(config.tokens5h == config.tokens7d == config.cost5h == config.cost7d == None)
  }

  /** The report of one window against a cap in tokens and one in cost. */
  predicate ReportsAgainst(c: Consumption, capacity: Option<int>, capacityCost: Option<int>) {
    && c.capacity == capacity && c.capacityCost == capacityCost
    && (c.pct.Some? <==> capacity.Some? && capacity.value > 0)
    && (c.pct.Some? ==> c.pct.value * capacity.value as real == c.usage.tokens as real * 100.0)
    && (c.pctCost.Some? <==> capacityCost.Some? && capacityCost.value > 0)
    && (c.pctCost.Some? ==> c.pctCost.value * capacityCost.value as real == c.usage.cost as real * 100.0)
  }

  lemma PercentMeans(consumed: int, capacity: Option<int>)
    ensures Percent(consumed, capacity).Some? <==> capacity.Some? && capacity.value > 0
    ensures Percent(consumed, capacity).Some? ==>
              Percent(consumed, capacity).value * capacity.value as real == consumed as real * 100.0
  {
    if capacity.Some? && capacity.value > 0 {
      assert consumed as real / capacity.value as real * capacity.value as real == consumed as real;
    }
  }

  lemma {:induction false} ReportMeans(usage: Usage, capacity: Option<int>, rate: int, capacityCost: Option<int>,
                                       lowerBound: bool)
    ensures var c := Report(usage, capacity, rate, capacityCost, lowerBound);
            c.usage == usage && ReportsAgainst(c, capacity, capacityCost) && c.tokensPerMin == rate
  {
    PercentMeans(usage.tokens, capacity);
    PercentMeans(usage.cost, capacityCost);
  }

  /** Each window's figures are those of its own span, and a cap set by the user rules its own window and no other one;
      then nothing observed is used, and no window counts as falsifying its cap. */
  lemma {:induction false} CapsRuleTheirWindows(events: seq<Event>, config: Config, rate: int, now: int, scope: Scope)
    requires AnyCapSet(config)
    ensures var b := WindowBudgetOf(events, config, rate, now, scope);
            && b.fiveHour.usage == UsageOf(Within(events, now - 18_000_000, now))
            && b.sevenDay.usage == UsageOf(Within(events, now - 604_800_000, now))
            && ReportsAgainst(b.fiveHour, config.tokens5h, config.cost5h)
            && ReportsAgainst(b.sevenDay, config.tokens7d, config.cost7d)
            && !b.fiveHour.exceeded && !b.sevenDay.exceeded && b.configured
            && b.fiveHour.tokensPerMin == b.sevenDay.tokensPerMin == rate
  {
    ReportMeans(UsageOf(Within(events, now - FIVE_HOURS_MS, now)), config.tokens5h, rate, config.cost5h, false);
    ReportMeans(UsageOf(Within(events, now - SEVEN_DAYS_MS, now)), config.tokens7d, rate, config.cost7d, false);
  }

  /** Changing the caps of one window leaves the report of the other one alone, as long as some cap stays set. */
  lemma {:induction false} OtherWindowUnaffected(
    events: seq<Event>, config: Config, other: Config, rate: int, now: int, scope: Scope)
    requires AnyCapSet(config) && AnyCapSet(other)
    ensures config.tokens5h == other.tokens5h && config.cost5h == other.cost5h ==>
              WindowBudgetOf(events, config, rate, now, scope).fiveHour
                == WindowBudgetOf(events, other, rate, now, scope).fiveHour
    ensures config.tokens7d == other.tokens7d && config.cost7d == other.cost7d ==>
              WindowBudgetOf(events, config, rate, now, scope).sevenDay
                == WindowBudgetOf(events, other, rate, now, scope).sevenDay
  {}

  /** Without a cap of the user's, an account is measured against its own observed figures, window by window, and the
      events of no account against nothing. */
  lemma {:induction false} ObservedCapsOfAccount(events: seq<Event>, config: Config, rate: int, now: int, scope: Scope)
    requires !AnyCapSet(config) && !scope.Pooled?
    ensures var b := WindowBudgetOf(events, config, rate, now, scope);
            && (scope.Account? && scope.uuid in config.observed ==>
                  var seen := config.observed[scope.uuid];
                  && ReportsAgainst(b.fiveHour, seen.tokens5h, seen.cost5h)
                  && ReportsAgainst(b.sevenDay, seen.tokens7d, seen.cost7d))
            && (!(scope.Account? && scope.uuid in config.observed) ==>
                  && b.fiveHour.capacity == b.fiveHour.capacityCost == None
                  && b.sevenDay.capacity == b.sevenDay.capacityCost == None)
  {
    if scope.Account? && scope.uuid in config.observed {
      var seen, lower := config.observed[scope.uuid], !UserConfigured(config);
      ReportMeans(UsageOf(Within(events, now - FIVE_HOURS_MS, now)), seen.tokens5h, rate, seen.cost5h, lower);
      ReportMeans(UsageOf(Within(events, now - SEVEN_DAYS_MS, now)), seen.tokens7d, rate, seen.cost7d, lower);
    }
  }

  /** The pooled budget borrows the figures of the one account that burned, each for its own window. */
  lemma {:induction false} ObservedCapsPooled(events: seq<Event>, config: Config, rate: int, now: int)
    requires !AnyCapSet(config)
    ensures var b := WindowBudgetOf(events, config, rate, now, Pooled);
            var five, week :=
              ObservedFor(config, Pooled, events, now, 18_000_000),
              ObservedFor(config, Pooled, events, now, 604_800_000);
            && (five.Some? ==> ReportsAgainst(b.fiveHour, five.value.tokens5h, five.value.cost5h))
            && (week.Some? ==> ReportsAgainst(b.sevenDay, week.value.tokens7d, week.value.cost7d))
            && (five.None? ==> b.fiveHour.capacity == b.fiveHour.capacityCost == None)
            && (week.None? ==> b.sevenDay.capacity == b.sevenDay.capacityCost == None)
  {
    var five, week :=
      ObservedFor(config, Pooled, events, now, FIVE_HOURS_MS), ObservedFor(config, Pooled, events, now, SEVEN_DAYS_MS);
    var lower := !UserConfigured(config);
    if five.Some? {
      ReportMeans(UsageOf(Within(events, now - FIVE_HOURS_MS, now)), five.value.tokens5h, rate, five.value.cost5h,
        lower);
    }
    if week.Some? {
      ReportMeans(UsageOf(Within(events, now - SEVEN_DAYS_MS, now)), week.value.tokens7d, rate, week.value.cost7d,
        lower);
    }
  }

  /** What a budget says about where its caps come from. */
  lemma {:induction false} SourceOfCaps(events: seq<Event>, config: Config, rate: int, now: int, scope: Scope)
    ensures var b := WindowBudgetOf(events, config, rate, now, scope);
            var users := config.source.Env? || config.source.ConfigFile?;
            var five, week :=
              ObservedFor(config, scope, events, now, 18_000_000),
              ObservedFor(config, scope, events, now, 604_800_000);
            && (users ==> b.source == config.source)
            && (b.source == Observed <==> !users && (five.Some? || week.Some?))
            && (b.configured <==>
                  b.fiveHour.capacity.Some? || b.sevenDay.capacity.Some?
                  || b.fiveHour.capacityCost.Some? || b.sevenDay.capacityCost.Some?)
            && (b.fiveHour.exceeded ==> !users && five.Some?) && (b.sevenDay.exceeded ==> !users && week.Some?)
  {}

  /** A true cap that is spent leaves 0 minutes; time is only projected from a cap and a rate. */
  lemma {:induction false} TimeLeft(usage: Usage, capacity: Option<int>, rate: int, capacityCost: Option<int>)
    ensures var c := Report(usage, capacity, rate, capacityCost, false);
            && (c.minutesLeft.Some? <==> capacity.Some? && (usage.tokens >= capacity.value || rate > 0))
            && (capacity.Some? && usage.tokens >= capacity.value ==> c.minutesLeft == Some(0))
            && (capacity.Some? && usage.tokens < capacity.value && rate > 0 ==>
                  var tenths, remaining := c.minutesLeft.value, capacity.value - usage.tokens;
                  (2 * tenths - 1) * rate <= 20 * remaining < (2 * tenths + 1) * rate)
  {
    if capacity.Some? && usage.tokens < capacity.value && rate > 0 {
      RoundsToNearest(capacity.value - usage.tokens, rate);
    }
  }

  // ---- The budgets by account ----

  /** The rate is the tokens of the last five minutes per minute, to the nearest whole number. */
  lemma {:induction false} RateOfFiveMinutes(events: seq<Event>, now: int)
    ensures -2 <= 5 * FiveMinRate(events, now) - UsageOf(Within(events, now - 300_000, now)).tokens <= 2
  {}

  /** Each account is measured by its own events alone, projected at its own rate, against its own caps. */
  lemma {:induction false} BudgetOfAccount(events: seq<Event>, config: Config, now: int, account: Option<string>)
    ensures var b, mine := AccountBudgetOf(events, config, now, account), AccountEvents(events, account);
            && b.account == account && b.events == |Within(mine, now - 604_800_000, now)|
            && b.budget == WindowBudgetOf(mine, config, FiveMinRate(mine, now), now,
                                          if account.Some? then Account(account.value) else UnknownBucket)
  {}
}
