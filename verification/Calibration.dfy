/** Capacities auto-calibrated from rate-limit stalls: the guards, the ratchet and the stored maximum. */
module Calibration {
  import opened Wrappers
  import opened UsageWindows
  import opened WindowBudget

  const ROLLOVER_LOOKBACK_MS := 30 * 60 * 1000

  /** Costs count in hundred-millionths of a dollar; measured ones keep four decimals of the dollar. */
  const COST_STEP := 10_000

  datatype Card = Card(sessionId: string, account: Option<string>)

  /** A stop event with what the server knows at that moment. */
  datatype Stall = Stall(stopFailure: bool, rateLimited: bool, envCap: bool, session: string, ts: int,
                         events: seq<Event>, cards: seq<Card>, current: Option<string>)

  /** One account's stored observation and when a figure of it last rose. */
  datatype Entry = Entry(figures: Capacity, observedAt: int)

  datatype File = Unparseable | Parsed(manual: bool, observed: map<string, Entry>)

  datatype Figure = FiveTokens | WeekTokens | FiveCost | WeekCost

  function Get(c: Capacity, f: Figure): Option<int> {
    match f
    case FiveTokens => c.tokens5h
    case WeekTokens => c.tokens7d
    case FiveCost => c.cost5h
    case WeekCost => c.cost7d
  }

  function RoundCost(cost: int): int {
    (cost + COST_STEP / 2) / COST_STEP * COST_STEP
  }

  function Positive(n: int): Option<int> {
    if n > 0 then Some(n) else None
  }

  function CardAccount(cards: seq<Card>, session: string): Option<string> {
    if cards == [] then None
    else if cards[0].sessionId == session then cards[0].account
    else CardAccount(cards[1..], session)
  }

  /** The stalled session's account, else the live one. */
  function HotAccount(s: Stall): Option<string> {
    OrElse(if s.session != "" then CardAccount(s.cards, s.session) else None, s.current)
  }

  function In5h(s: Stall, a: string): seq<Event> {
    Within(AccountEvents(s.events, Some(a)), s.ts - FIVE_HOURS_MS, s.ts)
  }

  function In7d(s: Stall, a: string): seq<Event> {
    Within(AccountEvents(s.events, Some(a)), s.ts - SEVEN_DAYS_MS, s.ts)
  }

  /** The account was already burning just before the five hours began. */
  predicate Straddles(s: Stall, a: string) {
    Within(AccountEvents(s.events, Some(a)),
           s.ts - FIVE_HOURS_MS - ROLLOVER_LOOKBACK_MS, s.ts - FIVE_HOURS_MS - 1) != []
  }

  /** Every guard lets the stall through as a measurement of account `a`. */
  predicate Passes(s: Stall, a: string) {
    && s.stopFailure && s.rateLimited && !s.envCap && HotAccount(s) == Some(a) && a != ""
    && In5h(s, a) != [] && !Straddles(s, a)
    && (UsageOf(In5h(s, a)).tokens > 0 || RoundCost(UsageOf(In5h(s, a)).cost) > 0)
  }

  function Measured(s: Stall, a: string): Capacity {
    var five, week := UsageOf(In5h(s, a)), UsageOf(In7d(s, a));
    Capacity(Positive(five.tokens), Positive(week.tokens),
             Positive(RoundCost(five.cost)), Positive(RoundCost(week.cost)))
  }

  function Up(a: Option<int>, b: Option<int>): Option<int> {
    if a.None? then b else if b.None? then a else if a.value < b.value then b else a
  }

  function Merge(a: Capacity, b: Capacity): Capacity {
    Capacity(Up(a.tokens5h, b.tokens5h), Up(a.tokens7d, b.tokens7d), Up(a.cost5h, b.cost5h), Up(a.cost7d, b.cost7d))
  }

  /** The field-wise maximum, dated by the observation that last raised a field; and whether this one did. */
  function Ratchet(prev: Option<Entry>, next: Entry): (Entry, bool) {
    if prev.None? then (next, true)
    else
      var merged := Merge(prev.value.figures, next.figures);
      var raised := merged != prev.value.figures;
      (Entry(merged, if raised then next.observedAt else prev.value.observedAt), raised)
  }

  function Lookup(observed: map<string, Entry>, a: string): Option<Entry> {
    if a in observed then Some(observed[a]) else None
  }

  /** The configuration file after a stall. */
  function AfterStall(file: File, s: Stall): File {
    if file.Unparseable? || file.manual || HotAccount(s).None? || !Passes(s, HotAccount(s).value) then file
    else
      var a := HotAccount(s).value;
      var (merged, raised) := Ratchet(Lookup(file.observed, a), Entry(Measured(s, a), s.ts));
      if raised then file.(observed := file.observed[a := merged]) else file
  }

  function AfterStalls(file: File, stalls: seq<Stall>): File {
    if stalls == [] then file else AfterStall(AfterStalls(file, stalls[..|stalls| - 1]), stalls[|stalls| - 1])
  }

  function Earliest(events: seq<Event>): int
    requires events != []
  {
    if |events| == 1 then events[0].ts
    else
      var m, t := Earliest(events[..|events| - 1]), events[|events| - 1].ts;
      if t < m then t else m
  }

  lemma {:induction false} EarliestIsLeast(events: seq<Event>)
    requires events != []
    ensures forall e :: e in events ==> Earliest(events) <= e.ts
    ensures exists e :: e in events && e.ts == Earliest(events)
  {
    if |events| > 1 {
      EarliestIsLeast(events[..|events| - 1]);
      assert events == events[..|events| - 1] + [events[|events| - 1]];
    } else {
      assert events[0] in events;
    }
  }

  /** Measuring from the first event of an interval measures the whole interval. */
  lemma {:induction false} SameFromFirst(events: seq<Event>, from: int, start: int, to: int)
    requires from <= start && forall e :: e in Within(events, from, to) ==> start <= e.ts
    ensures Within(events, start, to) == Within(events, from, to)
  {
    if events != [] {
      var e := events[|events| - 1];
      assert from <= e.ts <= to ==> Within(events, from, to)[|Within(events, from, to)| - 1] == e;
      SameFromFirst(events[..|events| - 1], from, start, to);
    }
  }

  lemma {:induction false} MeasuredFromWindowStart(s: Stall, a: string)
    requires In5h(s, a) != []
    ensures Within(AccountEvents(s.events, Some(a)), Earliest(In5h(s, a)), s.ts) == In5h(s, a)
  {
    EarliestIsLeast(In5h(s, a));
    WithinAreEvents(AccountEvents(s.events, Some(a)), s.ts - FIVE_HOURS_MS, s.ts);
    SameFromFirst(AccountEvents(s.events, Some(a)), s.ts - FIVE_HOURS_MS, Earliest(In5h(s, a)), s.ts);
  }

  /** Measures one account at a stall, unless a guard on its consumption stops it. */
  method MeasureStall(s: Stall, a: string) returns (next: Option<Capacity>)
    ensures next == if In5h(s, a) != [] && !Straddles(s, a)
                       && (UsageOf(In5h(s, a)).tokens > 0 || RoundCost(UsageOf(In5h(s, a)).cost) > 0)
                    then Some(Measured(s, a)) else None
  {
    var in5h := In5h(s, a);
    if in5h == [] { return None; }
    if Straddles(s, a) { return None; }
    MeasuredFromWindowStart(s, a);
    var five := ObserveCapacity(s.events, Some(a), Earliest(in5h), s.ts);
    if five.tokens <= 0 && RoundCost(five.cost) <= 0 { return None; }
    var week := ObserveCapacity(s.events, Some(a), s.ts - SEVEN_DAYS_MS, s.ts);
    return Some(Capacity(Positive(five.tokens), Positive(week.tokens),
                         Positive(RoundCost(five.cost)), Positive(RoundCost(week.cost))));
  }

  /** The persisted configuration, updated by every stop event. */
  class CalibrationStore {
    var file: File

    constructor ()
      ensures file == Parsed(false, map[])
    {
      file := Parsed(false, map[]);
    }

    method CalibrateFromStopFailure(s: Stall) returns (calibrated: bool)
      modifies this
      ensures file == AfterStall(old(file), s)
      ensures calibrated <==> old(file) != file
    {
      calibrated := false;
      if !s.stopFailure || !s.rateLimited { return; }
      if s.envCap || (file.Parsed? && file.manual) { return; }
      var hot := HotAccount(s);
      if hot.None? || hot.value == "" { return; }
      var a := hot.value;
      var measured := MeasureStall(s, a);
      if measured.None? { return; }
      var next := Entry(measured.value, s.ts);
      var (merged, raised) := Ratchet(if file.Parsed? then Lookup(file.observed, a) else None, next);
      if !raised { return; }
      if file.Unparseable? { return; }
      file := file.(observed := file.observed[a := merged]);
      calibrated := true;
    }
  }

  // ---- Over whole runs ----

  /** What is stored for one account and figure. */
  function Stored(file: File, a: string, f: Figure): Option<int> {
    if file.Parsed? && a in file.observed then Get(file.observed[a].figures, f) else None
  }

  /** `m` is the largest measurement of `f` among the passing stalls of `a`; None when there is none. */
  ghost predicate LargestMeasured(m: Option<int>, stalls: seq<Stall>, a: string, f: Figure) {
    && (m.Some? ==> exists s :: s in stalls && Passes(s, a) && Get(Measured(s, a), f) == m)
    && forall s :: s in stalls && Passes(s, a) && Get(Measured(s, a), f).Some? ==>
         m.Some? && Get(Measured(s, a), f).value <= m.value
  }

  lemma StallRaises(file: File, s: Stall, a: string, f: Figure)
    requires file.Parsed? && !file.manual
    ensures AfterStall(file, s).Parsed? && !AfterStall(file, s).manual
    ensures Stored(AfterStall(file, s), a, f)
         == if Passes(s, a) then Up(Stored(file, a, f), Get(Measured(s, a), f)) else Stored(file, a, f)
  {}

  lemma {:induction false} LargestGrows(m: Option<int>, stalls: seq<Stall>, s: Stall, a: string, f: Figure)
    requires LargestMeasured(m, stalls, a, f)
    ensures LargestMeasured(if Passes(s, a) then Up(m, Get(Measured(s, a), f)) else m, stalls + [s], a, f)
  {
    assert forall x :: x in stalls + [s] <==> x in stalls || x == s;
    if m.Some? {
      var best :| best in stalls && Passes(best, a) && Get(Measured(best, a), f) == m;
      assert best in stalls + [s];
    }
    assert s in stalls + [s];
  }

  /** From a file with nothing observed, each stored figure is the maximum over the stalls that passed the guards. */
  lemma {:induction false} StoredIsLargestMeasured(stalls: seq<Stall>, a: string, f: Figure)
    ensures AfterStalls(Parsed(false, map[]), stalls).Parsed? && !AfterStalls(Parsed(false, map[]), stalls).manual
    ensures LargestMeasured(Stored(AfterStalls(Parsed(false, map[]), stalls), a, f), stalls, a, f)
  {
    if stalls != [] {
      var init, s := stalls[..|stalls| - 1], stalls[|stalls| - 1];
      StoredIsLargestMeasured(init, a, f);
      StallRaises(AfterStalls(Parsed(false, map[]), init), s, a, f);
      LargestGrows(Stored(AfterStalls(Parsed(false, map[]), init), a, f), init, s, a, f);
      assert stalls == init + [s];
    }
  }

  /** The order of the stalls leaves no trace in the stored figures. */
  lemma {:induction false} OrderLeavesNoTrace(stalls: seq<Stall>, others: seq<Stall>, a: string, f: Figure)
    requires multiset(stalls) == multiset(others)
    ensures Stored(AfterStalls(Parsed(false, map[]), stalls), a, f)
         == Stored(AfterStalls(Parsed(false, map[]), others), a, f)
  {
    StoredIsLargestMeasured(stalls, a, f);
    StoredIsLargestMeasured(others, a, f);
    forall s ensures s in stalls <==> s in others {
      assert s in stalls <==> s in multiset(stalls);
      assert s in others <==> s in multiset(others);
    }
    LargestIsOne(Stored(AfterStalls(Parsed(false, map[]), stalls), a, f),
                 Stored(AfterStalls(Parsed(false, map[]), others), a, f), stalls, others, a, f);
  }

  lemma {:induction false} LargestIsOne(m: Option<int>, n: Option<int>, stalls: seq<Stall>, others: seq<Stall>,
                                        a: string, f: Figure)
    requires LargestMeasured(m, stalls, a, f) && LargestMeasured(n, others, a, f)
    requires forall s :: s in stalls <==> s in others
    ensures m == n
  {
    if m.Some? {
      var s :| s in stalls && Passes(s, a) && Get(Measured(s, a), f) == m;
      assert n.Some? && m.value <= n.value;
    }
    if n.Some? {
      var s :| s in others && Passes(s, a) && Get(Measured(s, a), f) == n;
      assert m.Some? && n.value <= m.value;
    }
  }

  predicate AtMost(a: Option<int>, b: Option<int>) {
    a.Some? ==> b.Some? && a.value <= b.value
  }

  /** No run of stalls ever lowers or forgets a stored figure, whatever the file held. */
  lemma {:induction false} StoredNeverFalls(file: File, stalls: seq<Stall>, a: string, f: Figure)
    ensures AtMost(Stored(file, a, f), Stored(AfterStalls(file, stalls), a, f))
  {
    if stalls != [] {
      StoredNeverFalls(file, stalls[..|stalls| - 1], a, f);
      var before := AfterStalls(file, stalls[..|stalls| - 1]);
      if before.Parsed? && !before.manual {
        StallRaises(before, stalls[|stalls| - 1], a, f);
      }
    }
  }

  /** A cap the user set, or a file that does not parse, is never touched. */
  lemma {:induction false} UserFilesUntouched(file: File, stalls: seq<Stall>)
    requires file.Unparseable? || file.manual
    ensures AfterStalls(file, stalls) == file
  {
    if stalls != [] { UserFilesUntouched(file, stalls[..|stalls| - 1]); }
  }

  lemma {:induction false} WiderWindowHoldsMore(events: seq<Event>, from: int, start: int, to: int)
    requires from <= start && NonNegative(events)
    ensures 0 <= UsageOf(Within(events, start, to)).tokens <= UsageOf(Within(events, from, to)).tokens
  {
    if events != [] {
      var init, e := events[..|events| - 1], events[|events| - 1];
      WiderWindowHoldsMore(init, from, start, to);
      UsageGrows(Within(init, from, to), e);
      UsageGrows(Within(init, start, to), e);
      assert Within(init, start, to) + [] == Within(init, start, to);
      assert Within(init, from, to) + [] == Within(init, from, to);
    }
  }

  predicate NonNegative(events: seq<Event>) {
    forall i :: 0 <= i < |events| ==> events[i].tokens >= 0
  }

  lemma {:induction false} AccountEventsNonNegative(events: seq<Event>, k: Option<string>)
    requires NonNegative(events)
    ensures NonNegative(AccountEvents(events, k))
  {
    if events != [] { AccountEventsNonNegative(events[..|events| - 1], k); }
  }

  lemma {:induction false} WeekMeasuresMore(s: Stall, a: string)
    requires NonNegative(s.events)
    ensures AtMost(Get(Measured(s, a), FiveTokens), Get(Measured(s, a), WeekTokens))
  {
    AccountEventsNonNegative(s.events, Some(a));
    WiderWindowHoldsMore(AccountEvents(s.events, Some(a)), s.ts - SEVEN_DAYS_MS, s.ts - FIVE_HOURS_MS, s.ts);
  }

  /** The stored weekly tokens are never below the stored five-hour tokens. */
  lemma {:induction false} WeekCoversFiveHours(stalls: seq<Stall>, a: string)
    requires forall s :: s in stalls ==> NonNegative(s.events)
    ensures var file := AfterStalls(Parsed(false, map[]), stalls);
            AtMost(Stored(file, a, FiveTokens), Stored(file, a, WeekTokens))
  {
    StoredIsLargestMeasured(stalls, a, FiveTokens);
    StoredIsLargestMeasured(stalls, a, WeekTokens);
    var file := AfterStalls(Parsed(false, map[]), stalls);
    WeekLargestCovers(Stored(file, a, FiveTokens), Stored(file, a, WeekTokens), stalls, a);
  }

  lemma {:induction false} WeekLargestCovers(five: Option<int>, week: Option<int>, stalls: seq<Stall>, a: string)
    requires LargestMeasured(five, stalls, a, FiveTokens) && LargestMeasured(week, stalls, a, WeekTokens)
    requires forall s :: s in stalls ==> NonNegative(s.events)
    ensures AtMost(five, week)
  {
    if five.Some? {
      var s :| s in stalls && Passes(s, a) && Get(Measured(s, a), FiveTokens) == five;
      WeekMeasuresMore(s, a);
    }
  }

  // ---- What the budgets then report ----

  function Figures(observed: map<string, Entry>): map<string, Capacity> {
    map a | a in observed :: observed[a].figures
  }

  /** The monitor's configuration when only observations are known. */
  function Loaded(file: File): Config
    requires file.Parsed?
  {
    Config(None, None, None, None, Observed, Figures(file.observed))
  }

  /** Tokens consumed are measured against a capacity, and stay within it. */
  predicate WithinHundred(c: Consumption) {
    (c.usage.tokens > 0 ==> c.pct.Some?) && (c.pct.Some? ==> c.pct.value <= 100.0)
  }

  lemma {:induction false} WithinBound(usage: Usage, capacity: Option<int>, rate: int, capacityCost: Option<int>,
                                       lowerBound: bool)
    requires AtMost(Positive(usage.tokens), capacity)
    ensures WithinHundred(Report(usage, capacity, rate, capacityCost, lowerBound))
  {
    if capacity.Some? && capacity.value > 0 { AboveHundred(usage.tokens, capacity.value); }
  }

  lemma {:induction false} MeasuredAtMostStored(stalls: seq<Stall>, s: Stall, a: string, f: Figure)
    requires s in stalls && Passes(s, a)
    ensures AtMost(Get(Measured(s, a), f), Stored(AfterStalls(Parsed(false, map[]), stalls), a, f))
  {
    StoredIsLargestMeasured(stalls, a, f);
  }

  lemma {:induction false} FillsWithin(file: File, mine: seq<Event>, a: string, rate: int, now: int)
    requires file.Parsed?
    requires AtMost(Positive(UsageOf(Within(mine, now - FIVE_HOURS_MS, now)).tokens), Stored(file, a, FiveTokens))
    requires AtMost(Positive(UsageOf(Within(mine, now - SEVEN_DAYS_MS, now)).tokens), Stored(file, a, WeekTokens))
    ensures var b := WindowBudgetOf(mine, Loaded(file), rate, now, Account(a));
            WithinHundred(b.fiveHour) && WithinHundred(b.sevenDay)
  {
    StoredCapacityIsUsed(file, mine, a, rate, now);
    WithinBound(UsageOf(Within(mine, now - FIVE_HOURS_MS, now)), Stored(file, a, FiveTokens), rate,
                Stored(file, a, FiveCost), a in file.observed);
    WithinBound(UsageOf(Within(mine, now - SEVEN_DAYS_MS, now)), Stored(file, a, WeekTokens), rate,
                Stored(file, a, WeekCost), a in file.observed);
  }

  /** At every measured stall of the run the account's tokens stay within 100% of both stored capacities. */
  lemma {:induction false} StallWithinStoredCapacity(stalls: seq<Stall>, s: Stall, a: string, rate: int)
    requires s in stalls && Passes(s, a)
    ensures AfterStalls(Parsed(false, map[]), stalls).Parsed?
    ensures var b := WindowBudgetOf(AccountEvents(s.events, Some(a)), Loaded(AfterStalls(Parsed(false, map[]), stalls)),
                                    rate, s.ts, Account(a));
            WithinHundred(b.fiveHour) && WithinHundred(b.sevenDay)
  {
    StoredIsLargestMeasured(stalls, a, FiveTokens);
    MeasuredAtMostStored(stalls, s, a, FiveTokens);
    MeasuredAtMostStored(stalls, s, a, WeekTokens);
    FillsWithin(AfterStalls(Parsed(false, map[]), stalls), AccountEvents(s.events, Some(a)), a, rate, s.ts);
  }

  lemma StoredCapacityIsUsed(file: File, mine: seq<Event>, a: string, rate: int, now: int)
    requires file.Parsed?
    ensures var b := WindowBudgetOf(mine, Loaded(file), rate, now, Account(a));
            && b.fiveHour == Report(UsageOf(Within(mine, now - FIVE_HOURS_MS, now)), Stored(file, a, FiveTokens), rate,
                                    Stored(file, a, FiveCost), a in file.observed)
            && b.sevenDay == Report(UsageOf(Within(mine, now - SEVEN_DAYS_MS, now)), Stored(file, a, WeekTokens), rate,
                                    Stored(file, a, WeekCost), a in file.observed)
  {}

  /** Rounding takes a cost down to a positive figure when it is worth a step and ends in less than half of one. */
  predicate RoundsDown(cost: int) {
    cost >= COST_STEP && 0 < cost % COST_STEP < COST_STEP / 2
  }

  lemma RoundsDownIff(cost: int)
    ensures 0 < RoundCost(cost) < cost <==> RoundsDown(cost)
  {
    var steps, rest := cost / COST_STEP, cost % COST_STEP;
    assert cost == steps * COST_STEP + rest;
    assert (cost + COST_STEP / 2) / COST_STEP == if rest < COST_STEP / 2 then steps else steps + 1;
  }

  /**
   * The very window a first calibration measured is reported as exceeding it exactly when its cost is worth at least
   * one ten-thousandth of a dollar and ends in less than half of another.
   */
  lemma {:induction false} FreshCalibrationExceededIffRoundedDown(s: Stall, a: string, rate: int)
    requires Passes(s, a)
    ensures var file, cost := AfterStall(Parsed(false, map[]), s), UsageOf(In5h(s, a)).cost;
            && file.Parsed?
            && (WindowBudgetOf(AccountEvents(s.events, Some(a)), Loaded(file), rate, s.ts, Account(a)).fiveHour.exceeded
                <==> RoundsDown(cost))
  {
    var file := AfterStall(Parsed(false, map[]), s);
    StallRaises(Parsed(false, map[]), s, a, FiveTokens);
    StallRaises(Parsed(false, map[]), s, a, FiveCost);
    StoredCapacityIsUsed(file, AccountEvents(s.events, Some(a)), a, rate, s.ts);
    OwnBoundExceeded(UsageOf(In5h(s, a)), rate);
  }

  /** A usage reported against the bounds measured from itself. */
  lemma OwnBoundExceeded(usage: Usage, rate: int)
    ensures Report(usage, Positive(usage.tokens), rate, Positive(RoundCost(usage.cost)), true).exceeded
            <==> RoundsDown(usage.cost)
  {
    RoundsDownIff(usage.cost);
  }

  /** A single event of one token and 0.00012 dollars, and a stall right behind it. */
  function SmallEvent(): Event {
    Event(0, Some("A"), 1, 12_000, None, None, None, None)
  }

  function SmallStall(): Stall {
    Stall(true, true, false, "", 0, [SmallEvent()], [], Some("A"))
  }

  lemma {:induction false} OneEvent(e: Event, from: int, to: int)
    ensures Within([e], from, to) == if from <= e.ts <= to then [e] else []
    ensures AccountEvents([e], e.account) == [e]
    ensures UsageOf([e]).tokens == e.tokens && UsageOf([e]).cost == e.cost
  {
    var none: seq<Event> := [];
    assert [e][..0] == none && [e][..1] == [e] && none + [e] == [e] && none + none == none;
    GroupGrows([e], 0, e.account);
    WithinGrows([e], 0, from, to);
    UsageGrows(none, e);
  }

  lemma {:induction false} SmallStallPasses() returns (s: Stall)
    ensures s.events == [SmallEvent()] && Passes(s, "A") && UsageOf(In5h(s, "A")).cost == 12_000
  {
    s := SmallStall();
    OneEvent(SmallEvent(), -FIVE_HOURS_MS, 0);
    OneEvent(SmallEvent(), -FIVE_HOURS_MS - ROLLOVER_LOOKBACK_MS, -FIVE_HOURS_MS - 1);
  }

  lemma {:induction false} FirstStored(s: Stall, a: string)
    requires Passes(s, a)
    ensures Stored(AfterStall(Parsed(false, map[]), s), a, FiveCost) == Positive(RoundCost(UsageOf(In5h(s, a)).cost))
  {
    StallRaises(Parsed(false, map[]), s, a, FiveCost);
  }

  lemma {:induction false} StoresAndExceeds(s: Stall, a: string, rate: int, bound: int)
    requires Passes(s, a) && RoundsDown(UsageOf(In5h(s, a)).cost)
    requires Positive(RoundCost(UsageOf(In5h(s, a)).cost)) == Some(bound)
    ensures var file := AfterStall(Parsed(false, map[]), s);
            && file.Parsed? && Stored(file, a, FiveCost) == Some(bound)
            && WindowBudgetOf(AccountEvents(s.events, Some(a)), Loaded(file), rate, s.ts, Account(a)).fiveHour.exceeded
  {
    FirstStored(s, a);
    FreshCalibrationExceededIffRoundedDown(s, a, rate);
  }

  /** It is stored as a bound of 0.0001 dollars, which the same window is then reported to exceed. */
  lemma {:induction false} ExceedsItselfWitness(rate: int) returns (s: Stall)
    ensures s.events == [SmallEvent()] && Passes(s, "A")
    ensures var file := AfterStall(Parsed(false, map[]), s);
            && file.Parsed? && Stored(file, "A", FiveCost) == Some(10_000)
            && WindowBudgetOf(
                 AccountEvents(s.events, Some("A")), Loaded(file), rate, s.ts, Account("A")).fiveHour.exceeded
  {
    s := SmallStallPasses();
    StoresAndExceeds(s, "A", rate, 10_000);
  }
}
