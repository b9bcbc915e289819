/** When a stall measures an account, what it measures, and what of the file it touches: field by field. */
module CalibrationGuards {
  import opened Wrappers
  import opened UsageWindows
  import opened WindowBudget
  import opened BudgetFigures
  import opened Calibration

  // ---- Whose stall it is ----

  /** The first card of the stalled session names an account. */
  predicate SessionNames(s: Stall, account: string) {
    && s.session != ""
    && exists i :: 0 <= i < |s.cards| && FirstCard(s.cards, s.session, i) && s.cards[i].account == Some(account)
  }

  predicate FirstCard(cards: seq<Card>, session: string, i: nat) {
    i < |cards| && cards[i].sessionId == session && forall j :: 0 <= j < i ==> cards[j].sessionId != session
  }

  lemma {:induction false} CardOfSession(cards: seq<Card>, session: string, account: string)
    ensures CardAccount(cards, session) == Some(account)
       <==> exists i :: 0 <= i < |cards| && FirstCard(cards, session, i) && cards[i].account == Some(account)
  {
    if cards != [] {
      var rest := cards[1..];
      CardOfSession(rest, session, account);
      if cards[0].sessionId == session {
        assert FirstCard(cards, session, 0);
      } else {
        forall i | 0 <= i < |rest| ensures FirstCard(rest, session, i) <==> FirstCard(cards, session, i + 1) {
          ShiftedCard(cards, session, i);
        }
        if exists i :: 0 <= i < |cards| && FirstCard(cards, session, i) && cards[i].account == Some(account) {
          var i :| 0 <= i < |cards| && FirstCard(cards, session, i) && cards[i].account == Some(account);
          assert FirstCard(rest, session, i - 1) && rest[i - 1] == cards[i];
        }
        if exists i :: 0 <= i < |rest| && FirstCard(rest, session, i) && rest[i].account == Some(account) {
          var i :| 0 <= i < |rest| && FirstCard(rest, session, i) && rest[i].account == Some(account);
          assert FirstCard(cards, session, i + 1) && cards[i + 1] == rest[i];
        }
      }
    }
  }

  lemma ShiftedCard(cards: seq<Card>, session: string, i: nat)
    requires i + 1 < |cards| && cards[0].sessionId != session
    ensures FirstCard(cards[1..], session, i) <==> FirstCard(cards, session, i + 1)
  {
    if FirstCard(cards[1..], session, i) {
      forall j | 0 <= j < i + 1 ensures cards[j].sessionId != session {
        if j > 0 { assert cards[j] == cards[1..][j - 1]; }
      }
    }
  }

  /** The stalled session's own account is measured, and the live one only when the session has none. */
  lemma {:induction false} HotAccountIs(s: Stall, account: string)
    ensures HotAccount(s) == Some(account) <==>
              || SessionNames(s, account)
              || (s.current == Some(account) && forall other: string :: !SessionNames(s, other))
  {
    forall other: string
      ensures SessionNames(s, other) <==> s.session != "" && CardAccount(s.cards, s.session) == Some(other)
    {
      CardOfSession(s.cards, s.session, other);
    }
  }

  // ---- When it measures, and what ----

  /** An event of the account in the interval, both ends included. */
  predicate BurnedIn(events: seq<Event>, a: string, from: int, to: int) {
    exists i :: 0 <= i < |events| && events[i].account == Some(a) && from <= events[i].ts <= to
  }

  lemma {:induction false} OwnWithinGrows(events: seq<Event>, e: Event, a: string, from: int, to: int)
    ensures Within(AccountEvents(events + [e], Some(a)), from, to)
         == Within(AccountEvents(events, Some(a)), from, to)
            + if e.account == Some(a) && from <= e.ts <= to then [e] else []
  {
    OneMoreOfAccount(events, e, Some(a));
    var mine := AccountEvents(events, Some(a));
    assert (mine + [e])[..|mine|] == mine;
    assert Within(mine, from, to) + [] == Within(mine, from, to);
  }

  lemma BurnedGrows(events: seq<Event>, e: Event, a: string, from: int, to: int)
    ensures BurnedIn(events + [e], a, from, to) <==>
              BurnedIn(events, a, from, to) || (e.account == Some(a) && from <= e.ts <= to)
  {
    var longer := events + [e];
    assert longer[|events|] == e && forall i :: 0 <= i < |events| ==> longer[i] == events[i];
  }

  lemma {:induction false} BurnedIffWithin(events: seq<Event>, a: string, from: int, to: int)
    ensures Within(AccountEvents(events, Some(a)), from, to) != [] <==> BurnedIn(events, a, from, to)
  {
    if events != [] {
      var init, e := events[..|events| - 1], events[|events| - 1];
      assert events == init + [e];
      BurnedIffWithin(init, a, from, to);
      OwnWithinGrows(init, e, a, from, to);
      BurnedGrows(init, e, a, from, to);
    }
  }

  /** The two guards on the events. */
  lemma GuardsRead(s: Stall, a: string)
    ensures In5h(s, a) != [] <==> BurnedIn(s.events, a, s.ts - 18_000_000, s.ts)
    ensures Straddles(s, a) <==> BurnedIn(s.events, a, s.ts - 19_800_000, s.ts - 18_000_001)
  {
    BurnedIffWithin(s.events, a, s.ts - 18_000_000, s.ts);
    BurnedIffWithin(s.events, a, s.ts - 19_800_000, s.ts - 18_000_001);
  }

  /**
   * A stall measures an account exactly when it is a rate-limited stop failure with no cap from the environment, the
   * account is the hot one, it burned something in the five hours before and nothing in the half hour before those.
   */
  lemma {:induction false} PassesIff(s: Stall, a: string)
    ensures var usage := UsageOf(Within(AccountEvents(s.events, Some(a)), s.ts - 18_000_000, s.ts));
            Passes(s, a) <==>
              && s.stopFailure && s.rateLimited && !s.envCap && HotAccount(s) == Some(a) && a != ""
              && BurnedIn(s.events, a, s.ts - 18_000_000, s.ts)
              && !BurnedIn(s.events, a, s.ts - 19_800_000, s.ts - 18_000_001)
              && (usage.tokens > 0 || usage.cost >= 5_000)
  {
    GuardsRead(s, a);
    RoundCostNearest(UsageOf(In5h(s, a)).cost);
  }

  /** Costs are stored to the nearest ten-thousandth of a dollar. */
  lemma RoundCostNearest(cost: int)
    ensures -5_000 < RoundCost(cost) - cost <= 5_000 && RoundCost(cost) % 10_000 == 0
    ensures RoundCost(cost) > 0 <==> cost >= 5_000
  {
    var n := cost + COST_STEP / 2;
    assert n == n / COST_STEP * COST_STEP + n % COST_STEP;
  }

  /** The figure is given exactly when it is positive. */
  predicate Stores(figure: Option<int>, n: int) {
    if n > 0 then figure == Some(n) else figure == None
  }

  /** The four figures are what the account burned in the five hours and in the seven days before the stall. */
  lemma {:induction false} MeasuredFigures(s: Stall, a: string)
    ensures var mine, c := AccountEvents(s.events, Some(a)), Measured(s, a);
            var five, week :=
              UsageOf(Within(mine, s.ts - 18_000_000, s.ts)), UsageOf(Within(mine, s.ts - 604_800_000, s.ts));
            && Stores(c.tokens5h, five.tokens) && Stores(c.tokens7d, week.tokens)
            && Stores(c.cost5h, RoundCost(five.cost)) && Stores(c.cost7d, RoundCost(week.cost))
  {}

  // ---- What the file keeps ----

  /** A stall touches no account but the one it measures, and dates its entry when a figure rises. */
  lemma {:induction false} StallTouchesItsAccount(file: File, s: Stall, a: string)
    requires file.Parsed? && !file.manual
    ensures var after := AfterStall(file, s);
            && after.Parsed? && !after.manual
            && (forall b :: b != a && Passes(s, a) ==> (b in after.observed <==> b in file.observed)
                                                       && (b in file.observed ==>
                                                          after.observed[b] == file.observed[b]))
            && ((forall b: string :: !Passes(s, b)) ==> after == file)
            && (after != file && Passes(s, a) ==> a in after.observed && after.observed[a].observedAt == s.ts)
  {}

  /** An entry only changes by rising: with no figure above the stored ones it stays as it is, its date included. */
  lemma {:induction false} NothingHigherNothingChanged(file: File, s: Stall, a: string)
    requires file.Parsed? && !file.manual && Passes(s, a) && a in file.observed
    ensures var seen, new_ := file.observed[a].figures, Measured(s, a);
            AfterStall(file, s) == file <==> forall f: Figure :: AtMost(Get(new_, f), Get(seen, f))
  {
    var seen, new_ := file.observed[a].figures, Measured(s, a);
    forall f: Figure ensures Get(Merge(seen, new_), f) == Up(Get(seen, f), Get(new_, f)) {}
    if forall f: Figure :: AtMost(Get(new_, f), Get(seen, f)) {
      assert AtMost(Get(new_, FiveTokens), Get(seen, FiveTokens))
        && AtMost(Get(new_, WeekTokens), Get(seen, WeekTokens));
      assert AtMost(Get(new_, FiveCost), Get(seen, FiveCost)) && AtMost(Get(new_, WeekCost), Get(seen, WeekCost));
      assert Merge(seen, new_) == seen;
    }
  }
}
