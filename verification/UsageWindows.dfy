/** Rolling-window consumption, its split by account, and the conservation of every figure. */
module UsageWindows {
  import opened Wrappers
  import Sums

  /** One consumption event; the four bucket fields may each be absent. */
  datatype Event = Event(ts: int, account: Option<string>, tokens: int, cost: int,
                         input: Option<int>, output: Option<int>, cacheRead: Option<int>, cacheCreate: Option<int>)

  datatype Breakdown = Breakdown(input: int, output: int, cacheRead: int, cacheCreate: int, unknown: int)

  datatype Usage = Usage(tokens: int, cost: int, count: int, breakdown: Breakdown)

  predicate HasSplit(e: Event) {
    e.input.Some? || e.output.Some? || e.cacheRead.Some? || e.cacheCreate.Some?
  }

  function AccountOf(e: Event): Option<string> { e.account }
  function TokensOf(e: Event): int { e.tokens }
  function CostOf(e: Event): int { e.cost }
  function One(e: Event): int { 1 }
  function InputOf(e: Event): int { e.input.GetOr(0) }
  function OutputOf(e: Event): int { e.output.GetOr(0) }
  function CacheReadOf(e: Event): int { e.cacheRead.GetOr(0) }
  function CacheCreateOf(e: Event): int { e.cacheCreate.GetOr(0) }
  function UnknownOf(e: Event): int { if HasSplit(e) then 0 else e.tokens }

  /** The events stamped in the closed interval, in order. */
  function Within(events: seq<Event>, from: int, to: int): seq<Event> {
    if events == [] then []
    else Within(events[..|events| - 1], from, to)
         + if from <= events[|events| - 1].ts <= to then [events[|events| - 1]] else []
  }

  function Split(s: seq<Event>): Breakdown {
    Breakdown(Sums.Total(s, InputOf), Sums.Total(s, OutputOf), Sums.Total(s, CacheReadOf),
              Sums.Total(s, CacheCreateOf), Sums.Total(s, UnknownOf))
  }

  /** Each figure of a list of events, summed on its own. */
  function UsageOf(s: seq<Event>): Usage {
    Usage(Sums.Total(s, TokensOf), Sums.Total(s, CostOf), |s|, Split(s))
  }

  /** One event added to the running figures. */
  function AddEvent(u: Usage, e: Event): Usage {
    var b := u.breakdown;
    Usage(u.tokens + e.tokens, u.cost + e.cost, u.count + 1,
          if HasSplit(e) then
            Breakdown(b.input + e.input.GetOr(0), b.output + e.output.GetOr(0),
                      b.cacheRead + e.cacheRead.GetOr(0), b.cacheCreate + e.cacheCreate.GetOr(0), b.unknown)
          else b.(unknown := b.unknown + e.tokens))
  }

  lemma {:induction false} UsageGrows(s: seq<Event>, e: Event)
    ensures UsageOf(s + [e]) == AddEvent(UsageOf(s), e)
  {
    assert (s + [e])[..|s|] == s;
  }

  lemma {:induction false} WithinGrows(events: seq<Event>, i: nat, from: int, to: int)
    requires i < |events|
    ensures Within(events[..i + 1], from, to)
         == Within(events[..i], from, to) + if from <= events[i].ts <= to then [events[i]] else []
  {
    assert events[..i + 1][..i] == events[..i];
  }

  /** The single accumulating pass over the stream. */
  method WindowSum(events: seq<Event>, now: int, windowMs: int) returns (u: Usage)
    ensures u == UsageOf(Within(events, now - windowMs, now))
  {
    var from := now - windowMs;
    u := Usage(0, 0, 0, Breakdown(0, 0, 0, 0, 0));
    for i := 0 to |events|
      invariant u == UsageOf(Within(events[..i], from, now))
    {
      var e := events[i];
      WithinGrows(events, i, from, now);
      if e.ts < from || e.ts > now {
        assert Within(events[..i], from, now) + [] == Within(events[..i], from, now);
        continue;
      }
      UsageGrows(Within(events[..i], from, now), e);
      u := AddEvent(u, e);
    }
    assert events[..|events|] == events;
  }

  // ---- The split into buckets ----

  /** How far an event's own split misses its token figure. */
  function SplitError(e: Event): int {
    if HasSplit(e) then InputOf(e) + OutputOf(e) + CacheReadOf(e) + CacheCreateOf(e) - e.tokens else 0
  }

  function BucketSum(b: Breakdown): int {
    b.input + b.output + b.cacheRead + b.cacheCreate + b.unknown
  }

  /** The breakdown misses the token figure by exactly what the event splits miss it. */
  lemma {:induction false} BreakdownSums(s: seq<Event>)
    ensures BucketSum(UsageOf(s).breakdown) == UsageOf(s).tokens + Sums.Total(s, SplitError)
  {
    if s != [] {
      BreakdownSums(s[..|s| - 1]);
      assert s == s[..|s| - 1] + [s[|s| - 1]];
    }
  }

  lemma {:induction false} ExactSplitsSum(s: seq<Event>)
    requires forall i :: 0 <= i < |s| ==> SplitError(s[i]) == 0
    ensures BucketSum(UsageOf(s).breakdown) == UsageOf(s).tokens
  {
    BreakdownSums(s);
    NoErrorNoTotal(s);
  }

  lemma {:induction false} NoErrorNoTotal(s: seq<Event>)
    requires forall i :: 0 <= i < |s| ==> SplitError(s[i]) == 0
    ensures Sums.Total(s, SplitError) == 0
  {
    if s != [] { NoErrorNoTotal(s[..|s| - 1]); }
  }

  // ---- The split by account ----

  function AccountEvents(events: seq<Event>, k: Option<string>): seq<Event> {
    Sums.Group(events, AccountOf, k)
  }

  /** Picking an account and picking a window commute. */
  lemma {:induction false} WindowOfAccount(events: seq<Event>, k: Option<string>, from: int, to: int)
    ensures Within(AccountEvents(events, k), from, to) == AccountEvents(Within(events, from, to), k)
  {
    if events != [] {
      var init, e := events[..|events| - 1], events[|events| - 1];
      WindowOfAccount(init, k, from, to);
      var mine, window := AccountEvents(init, k), Within(init, from, to);
      assert (mine + [e])[..|mine|] == mine && (window + [e])[..|window|] == window;
      assert mine + [] == mine && window + [] == window;
    }
  }

  function Plus(a: Usage, b: Usage): Usage {
    Usage(a.tokens + b.tokens, a.cost + b.cost, a.count + b.count,
          Breakdown(a.breakdown.input + b.breakdown.input, a.breakdown.output + b.breakdown.output,
                    a.breakdown.cacheRead + b.breakdown.cacheRead, a.breakdown.cacheCreate + b.breakdown.cacheCreate,
                    a.breakdown.unknown + b.breakdown.unknown))
  }

  /** The per-account figures of one window, added up over the accounts. */
  function AccountsTogether(keys: seq<Option<string>>, events: seq<Event>, from: int, to: int): Usage {
    if keys == [] then Usage(0, 0, 0, Breakdown(0, 0, 0, 0, 0))
    else Plus(UsageOf(Within(AccountEvents(events, keys[0]), from, to)), AccountsTogether(keys[1..], events, from, to))
  }

  lemma {:induction false} TotalOfOnes(s: seq<Event>)
    ensures Sums.Total(s, One) == |s|
  {
    if s != [] { TotalOfOnes(s[..|s| - 1]); }
  }

  /** Each figure summed over the buckets of a group-by on the account. */
  function FiguresOver(keys: seq<Option<string>>, w: seq<Event>): Usage {
    Usage(Sums.SumGroups(keys, w, AccountOf, TokensOf), Sums.SumGroups(keys, w, AccountOf, CostOf),
          Sums.SumGroups(keys, w, AccountOf, One),
          Breakdown(Sums.SumGroups(keys, w, AccountOf, InputOf), Sums.SumGroups(keys, w, AccountOf, OutputOf),
                    Sums.SumGroups(keys, w, AccountOf, CacheReadOf), Sums.SumGroups(keys, w, AccountOf, CacheCreateOf),
                    Sums.SumGroups(keys, w, AccountOf, UnknownOf)))
  }

  lemma {:induction false} FiguresStep(keys: seq<Option<string>>, w: seq<Event>)
    requires keys != []
    ensures FiguresOver(keys, w) == Plus(UsageOf(AccountEvents(w, keys[0])), FiguresOver(keys[1..], w))
  {
    TotalOfOnes(AccountEvents(w, keys[0]));
  }

  lemma {:induction false} FigureByFigure(keys: seq<Option<string>>, events: seq<Event>, from: int, to: int)
    ensures AccountsTogether(keys, events, from, to) == FiguresOver(keys, Within(events, from, to))
  {
    if keys != [] {
      FigureByFigure(keys[1..], events, from, to);
      WindowOfAccount(events, keys[0], from, to);
      FiguresStep(keys, Within(events, from, to));
    }
  }

  lemma {:induction false} WithinAreEvents(events: seq<Event>, from: int, to: int)
    ensures forall e :: e in Within(events, from, to) <==> e in events && from <= e.ts <= to
  {
    if events != [] {
      WithinAreEvents(events[..|events| - 1], from, to);
      assert events == events[..|events| - 1] + [events[|events| - 1]];
    }
  }

  /** Tokens, cost, event count and all five buckets: the accounts add up to the pooled window. */
  lemma {:induction false} AccountsAddUpToPool(keys: seq<Option<string>>, events: seq<Event>, from: int, to: int)
    requires Sums.Distinct(keys) && forall i :: 0 <= i < |events| ==> events[i].account in keys
    ensures AccountsTogether(keys, events, from, to) == UsageOf(Within(events, from, to))
  {
    var w := Within(events, from, to);
    WithinAreEvents(events, from, to);
    forall i | 0 <= i < |w| ensures AccountOf(w[i]) in keys {
      assert w[i] in events;
    }
    FigureByFigure(keys, events, from, to);
    Sums.BucketsSumToWhole(keys, w, AccountOf, TokensOf);
    Sums.BucketsSumToWhole(keys, w, AccountOf, CostOf);
    Sums.BucketsSumToWhole(keys, w, AccountOf, One);
    Sums.BucketsSumToWhole(keys, w, AccountOf, InputOf);
    Sums.BucketsSumToWhole(keys, w, AccountOf, OutputOf);
    Sums.BucketsSumToWhole(keys, w, AccountOf, CacheReadOf);
    Sums.BucketsSumToWhole(keys, w, AccountOf, CacheCreateOf);
    Sums.BucketsSumToWhole(keys, w, AccountOf, UnknownOf);
    TotalOfOnes(w);
  }

  lemma {:induction false} GroupGrows(events: seq<Event>, i: nat, k: Option<string>)
    requires i < |events|
    ensures AccountEvents(events[..i + 1], k)
         == AccountEvents(events[..i], k) + if events[i].account == k then [events[i]] else []
  {
    assert events[..i + 1][..i] == events[..i];
  }

  lemma {:induction false} NoEventsOfAccount(events: seq<Event>, k: Option<string>)
    requires forall i :: 0 <= i < |events| ==> events[i].account != k
    ensures AccountEvents(events, k) == []
  {
    if events != [] { NoEventsOfAccount(events[..|events| - 1], k); }
  }

  /** The insertion-ordered map of event lists, one per account that occurs. */
  method SplitByAccount(events: seq<Event>)
    returns (keys: seq<Option<string>>, byAccount: map<Option<string>, seq<Event>>)
    ensures Sums.Distinct(keys) && (forall k :: k in keys <==> k in byAccount)
    ensures forall i :: 0 <= i < |events| ==> events[i].account in keys
    ensures forall k :: k in keys ==> byAccount[k] == AccountEvents(events, k) && byAccount[k] != []
  {
    keys, byAccount := [], map[];
    for i := 0 to |events|
      invariant Sums.Distinct(keys) && forall k :: k in keys <==> k in byAccount
      invariant forall j :: 0 <= j < i ==> events[j].account in keys
      invariant forall k :: k in byAccount ==> byAccount[k] == AccountEvents(events[..i], k) && byAccount[k] != []
    {
      var key := events[i].account;
      forall k ensures AccountEvents(events[..i + 1], k)
                    == AccountEvents(events[..i], k) + if key == k then [events[i]] else [] {
        GroupGrows(events, i, k);
      }
      if key in byAccount {
        byAccount := byAccount[key := byAccount[key] + [events[i]]];
      } else {
        NoEventsOfAccount(events[..i], key);
        keys := keys + [key];
        byAccount := byAccount[key := [events[i]]];
      }
    }
    assert events[..|events|] == events;
  }

  // ---- Measuring a premature window end ----

  /** What one account consumed between the start of its window and the stall that ended it. */
  method ObserveCapacity(events: seq<Event>, account: Option<string>, start: int, end: int) returns (u: Usage)
    ensures u == UsageOf(Within(AccountEvents(events, account), start, end))
  {
    u := Usage(0, 0, 0, Breakdown(0, 0, 0, 0, 0));
    for i := 0 to |events|
      invariant u == UsageOf(Within(AccountEvents(events[..i], account), start, end))
    {
      var e := events[i];
      GroupGrows(events, i, account);
      var mine := AccountEvents(events[..i], account);
      if e.account != account {
        assert mine + [] == mine;
        continue;
      }
      assert AccountEvents(events[..i + 1], account)[..|mine|] == mine;
      if e.ts < start || e.ts > end {
        assert Within(mine, start, end) + [] == Within(mine, start, end);
        continue;
      }
      UsageGrows(Within(mine, start, end), e);
      u := AddEvent(u, e);
    }
    assert events[..|events|] == events;
  }
}
