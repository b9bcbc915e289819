/** The account roster, and the inference that a reset window of an account left earlier is empty. */
module AccountRoster {
  import opened Wrappers
  import opened AccountTimeline

  /** An account is keyed by its id, falling back to its email; the empty key is skipped. */
  function RosterKey(r: AccountStateRecord): string {
    r.accountId.GetOr(r.email.GetOr(""))
  }

  datatype RosterEntry = RosterEntry(
    accountId: Option<string>, email: Option<string>, plan: string, mode: string, authRegime: string,
    firstSeen: int, lastStateChange: int, leftAt: Option<int>)

  /** The instant of the first record from `j` on that carries another key. */
  function LeftFrom(records: seq<AccountStateRecord>, j: nat, key: string): Option<int>
    decreases |records| - j
  {
    if j >= |records| then None
    else if RosterKey(records[j]) != key then Some(records[j].ts)
    else LeftFrom(records, j + 1, key)
  }

  function EntryFor(records: seq<AccountStateRecord>, i: nat, before: map<string, RosterEntry>): RosterEntry
    requires i < |records|
  {
    var r := records[i];
    var key := RosterKey(r);
    RosterEntry(r.accountId, r.email, r.plan, r.mode, r.authRegime,
      if key in before then before[key].firstSeen else r.ts, r.ts, LeftFrom(records, i + 1, key))
  }

  /** The roster after the first `n` records. */
  function RosterUpTo(records: seq<AccountStateRecord>, n: nat): map<string, RosterEntry>
    requires n <= |records|
  {
    if n == 0 then map[]
    else
      var before, key := RosterUpTo(records, n - 1), RosterKey(records[n - 1]);
      if key == "" then before else before[key := EntryFor(records, n - 1, before)]
  }

  method ListAccountRoster(records: seq<AccountStateRecord>) returns (roster: map<string, RosterEntry>)
    ensures roster == RosterUpTo(records, |records|)
  {
    roster := map[];
    for i := 0 to |records|
      invariant roster == RosterUpTo(records, i)
    {
      var r := records[i];
      var key := RosterKey(r);
      if key == "" {
        continue;
      }
      var leftAt: Option<int> := None;
      var j := i + 1;
      while j < |records|
        invariant i + 1 <= j <= |records|
        invariant leftAt.None? && LeftFrom(records, i + 1, key) == LeftFrom(records, j, key)
      {
        if RosterKey(records[j]) != key {
          leftAt := Some(records[j].ts);
          break;
        }
        j := j + 1;
      }
      var firstSeen := if key in roster then roster[key].firstSeen else r.ts;
      roster := roster[key := RosterEntry(r.accountId, r.email, r.plan, r.mode, r.authRegime, firstSeen, r.ts, leftAt)];
    }
  }

  ghost predicate LastNaming(records: seq<AccountStateRecord>, n: nat, key: string, i: int) {
    0 <= i < n <= |records| && RosterKey(records[i]) == key
    && forall j :: i < j < n ==> RosterKey(records[j]) != key
  }

  ghost predicate FirstNaming(records: seq<AccountStateRecord>, n: nat, key: string, i: int) {
    0 <= i < n <= |records| && RosterKey(records[i]) == key
    && forall j :: 0 <= j < i ==> RosterKey(records[j]) != key
  }

  /** Each account has one entry: first seen at its first record, described by its last one. */
  lemma {:induction false} RosterDescribesAccounts(records: seq<AccountStateRecord>, n: nat, key: string)
    returns (first: int, last: int)
    requires n <= |records|
    ensures key in RosterUpTo(records, n) <==> key != "" && exists i :: 0 <= i < n && RosterKey(records[i]) == key
    ensures key in RosterUpTo(records, n) ==>
      && FirstNaming(records, n, key, first) && LastNaming(records, n, key, last)
      && var e := RosterUpTo(records, n)[key];
         && e.firstSeen == records[first].ts && e.lastStateChange == records[last].ts
         && e.plan == records[last].plan && e.mode == records[last].mode
         && e.accountId == records[last].accountId && e.email == records[last].email
         && e.leftAt == LeftFrom(records, last + 1, key)
  {
    first, last := 0, 0;
    if n > 0 {
      first, last := RosterDescribesAccounts(records, n - 1, key);
      if RosterKey(records[n - 1]) == key {
        if !(key in RosterUpTo(records, n - 1)) { first := n - 1; }
        last := n - 1;
      }
    }
  }

  /** After an account's last record, `leftAt` is simply the next record's instant. */
  lemma LeftRightAfterLast(records: seq<AccountStateRecord>, key: string, last: int)
    requires LastNaming(records, |records|, key, last)
    ensures LeftFrom(records, last + 1, key) == if last + 1 < |records| then Some(records[last + 1].ts) else None
  {}

  // ---- Window classification ----

  datatype Freshness = Fresh | Aged | Rolled | Stale | Unreadable
  datatype Bound = Exact | Lower | Inferred | Unknown

  datatype AccountWindow = AccountWindow(percent: Option<int>, resetsAt: Option<int>, freshness: Freshness,
                                         bound: Bound)

  const TTL_MS := 600_000

  function BoundOf(f: Freshness): Bound {
    match f
    case Fresh => Exact
    case Aged => Lower
    case Rolled => Inferred
    case Stale => Unknown
    case Unreadable => Unknown
  }

  function MkWindow(percent: Option<int>, resetsAt: Option<int>, freshness: Freshness): AccountWindow {
    AccountWindow(percent, resetsAt, freshness, BoundOf(freshness))
  }

  /** `resetMs` is the parsed reset instant; None when it is absent or unparseable. */
  function ClassifyWindow(percent: Option<int>, resetMs: Option<int>, fetchedAt: int, leftAt: Option<int>, now: int,
                          labelSuspect: bool): AccountWindow {
    if percent.None? then MkWindow(None, None, Unreadable)
    else if resetMs.None? || resetMs.value > now then
      MkWindow(percent, resetMs, if now - fetchedAt < TTL_MS then Fresh else Aged)
    else if leftAt.Some? && leftAt.value <= resetMs.value && !labelSuspect then MkWindow(Some(0), None, Rolled)
    else MkWindow(None, None, Stale)
  }

  /** The latest reading of one window of an account, as observed while that account was live. */
  datatype Reading = Reading(percent: Option<int>, resetMs: Option<int>, fetchedAt: int, labelSuspect: bool)

  /** Readings are kept by account id; an entry without one is never readable. */
  function ReadingOf(e: RosterEntry, readings: map<string, Reading>): Option<Reading> {
    if e.accountId.Some? && e.accountId.value != "" && e.accountId.value in readings then
      Some(readings[e.accountId.value])
    else None
  }

  /** What the account table reports for one window of one roster entry. */
  function ReportedWindow(e: RosterEntry, liveAccountId: Option<string>, readings: map<string, Reading>,
                          now: int): AccountWindow {
    var isLive, reading := e.accountId.Some? && e.accountId == liveAccountId, ReadingOf(e, readings);
    if reading.None? then MkWindow(None, None, Unreadable)
    else
      var r := reading.value;
      ClassifyWindow(r.percent, r.resetMs, r.fetchedAt, if isLive then None else e.leftAt, now, r.labelSuspect)
  }

  /** The reading is of a window that has not reset since. */
  predicate Current(r: Reading, now: int) {
    r.percent.Some? && (r.resetMs.Some? ==> now < r.resetMs.value)
  }

  /**
   * What the table says of a window. A percentage that is not inferred is the account's own reading, with its own reset
   * instant; it is exact while the window has not reset and the reading is younger than ten minutes, and a lower bound
   * when it is older. Nothing but an inference turns a reading into 0%, and no other percentage is ever invented.
   */
  lemma {:induction false} WindowReportsTheReading(
    e: RosterEntry, liveAccountId: Option<string>, readings: map<string, Reading>, now: int)
    ensures var w, reading := ReportedWindow(e, liveAccountId, readings, now), ReadingOf(e, readings);
            && (w.percent.Some? ==> reading.Some?)
            && (w.bound != Inferred && w.percent.Some? ==>
                  w.percent == reading.value.percent && w.resetsAt == reading.value.resetMs)
            && (w.bound == Exact <==>
                  reading.Some? && Current(reading.value, now) && now - reading.value.fetchedAt < 10 * 60 * 1000)
            && (w.bound == Lower <==>
                  reading.Some? && Current(reading.value, now) && now - reading.value.fetchedAt >= 10 * 60 * 1000)
            && (w.bound == Inferred ==> w.percent == Some(0) && w.resetsAt == None && !Current(reading.value, now))
            && (w.bound == Unknown <==> w.percent == None)
            && (w.freshness == Unreadable <==> reading.None? || reading.value.percent.None?)
  {}

  /** Whose reading it is: entries with one id report the same, and a reading of another account changes nothing. */
  lemma {:induction false} ReadingIsTheAccountsOwn(
    e: RosterEntry, liveAccountId: Option<string>, readings: map<string, Reading>, other: string, r: Reading, now: int)
    requires e.accountId != Some(other)
    ensures ReportedWindow(e, liveAccountId, readings[other := r], now)
            == ReportedWindow(e, liveAccountId, readings, now)
  {}

  /** At `ts` the timeline's record carries another key: another account's, or that of a state without an account. */
  predicate NotOn(records: seq<AccountStateRecord>, key: string, ts: int) {
    var state := LastAtOrBefore(records, ts);
    state.Some? && RosterKey(state.value) != key
  }

  /** At `ts` this machine was observably on some other account than `id`. */
  predicate OnSomebodyElse(records: seq<AccountStateRecord>, id: string, ts: int) {
    var state := LastAtOrBefore(records, ts);
    state.Some? && state.value.accountId.Some? && state.value.accountId.value != id
  }

  lemma {:induction false} LastAtOrBeforeBeyond(records: seq<AccountStateRecord>, ts: int, i: nat)
    requires SortedByTs(records) && i < |records| && records[i].ts <= ts
    ensures exists k :: i <= k < |records| && LastAtOrBefore(records, ts) == Some(records[k]) && Governs(records, k, ts)
  {
    if records[|records| - 1].ts > ts {
      var init := records[..|records| - 1];
      LastAtOrBeforeBeyond(init, ts, i);
      var k :| i <= k < |init| && LastAtOrBefore(init, ts) == Some(init[k]) && Governs(init, k, ts);
      assert Governs(records, k, ts);
    } else {
      assert Governs(records, |records| - 1, ts);
    }
  }

  /** Record `k` is the one in force at `ts`. */
  predicate Governs(records: seq<AccountStateRecord>, k: nat, ts: int) {
    k < |records| && records[k].ts <= ts && (k + 1 == |records| || records[k + 1].ts > ts)
  }

  /** A window inferred empty is sound: from its reset instant on, the timeline never shows this
      machine on that account. */
  lemma {:induction false} RolledMeansAway(
    records: seq<AccountStateRecord>, key: string, liveAccountId: Option<string>, readings: map<string, Reading>,
    now: int, ts: int)
    requires SortedByTs(records) && key in RosterUpTo(records, |records|)
    requires ReportedWindow(RosterUpTo(records, |records|)[key], liveAccountId, readings, now).freshness == Rolled
    requires ReadingOf(RosterUpTo(records, |records|)[key], readings).value.resetMs.value <= ts
    ensures NotOn(records, key, ts)
  {
    var _, last := RosterDescribesAccounts(records, |records|, key);
    LeftRightAfterLast(records, key, last);
    LastAtOrBeforeBeyond(records, ts, last + 1);
  }

  lemma {:induction false} StillOnTheAccount(records: seq<AccountStateRecord>, key: string, last: nat, resetMs: int,
                                             now: int) returns (ts: int)
    requires forall i, j :: 0 <= i < j < |records| ==> records[i].ts < records[j].ts
    requires last < |records| && RosterKey(records[last]) == key && records[last].ts <= now && resetMs <= now
    requires last + 1 < |records| ==> records[last + 1].ts > resetMs
    ensures resetMs <= ts <= now && !NotOn(records, key, ts)
  {
    ts := if resetMs < records[last].ts then records[last].ts else resetMs;
    LastAtOrBeforeAt(records, ts, last);
  }

  /** The inference may apply at all: a trusted reading of a window that has reset, for an account that is not live. */
  predicate Inferable(e: RosterEntry, liveAccountId: Option<string>, readings: map<string, Reading>, now: int) {
    var reading := ReadingOf(e, readings);
    && reading.Some? && reading.value.percent.Some? && !reading.value.labelSuspect && e.accountId != liveAccountId
    && reading.value.resetMs.Some? && reading.value.resetMs.value <= now
  }

  /** With distinct instants none of which lies ahead, a window is inferred empty exactly when the inference may apply
      and the timeline never shows this machine on the account from the reset instant on. */
  lemma {:induction false} RolledIffAway(
    records: seq<AccountStateRecord>, key: string, liveAccountId: Option<string>, readings: map<string, Reading>,
    now: int)
    requires forall i, j :: 0 <= i < j < |records| ==> records[i].ts < records[j].ts
    requires forall i :: 0 <= i < |records| ==> records[i].ts <= now
    requires key in RosterUpTo(records, |records|)
    ensures var e := RosterUpTo(records, |records|)[key];
            ReportedWindow(e, liveAccountId, readings, now).freshness == Rolled
            <==> Inferable(e, liveAccountId, readings, now)
                 && forall ts :: ReadingOf(e, readings).value.resetMs.value <= ts <= now ==> NotOn(records, key, ts)
  {
    var e := RosterUpTo(records, |records|)[key];
    var _, last := RosterDescribesAccounts(records, |records|, key);
    LeftRightAfterLast(records, key, last);
    if ReportedWindow(e, liveAccountId, readings, now).freshness == Rolled {
      forall ts | ReadingOf(e, readings).value.resetMs.value <= ts <= now ensures NotOn(records, key, ts) {
        RolledMeansAway(records, key, liveAccountId, readings, now, ts);
      }
    } else if Inferable(e, liveAccountId, readings, now) {
      var ts := StillOnTheAccount(records, key, last, ReadingOf(e, readings).value.resetMs.value, now);
      assert !NotOn(records, key, ts);
    }
  }

  /** Record `i` is in force at some instant between `resetMs` and `now`. */
  predicate InForce(records: seq<AccountStateRecord>, i: nat, resetMs: int, now: int) {
    && i < |records| && records[i].ts <= now
    && (i + 1 == |records| || (records[i + 1].ts > resetMs && records[i + 1].ts > records[i].ts))
  }

  /** Every record in force from the reset on carries the id of an account. */
  predicate ResolvedSince(records: seq<AccountStateRecord>, resetMs: int, now: int) {
    forall i :: 0 <= i < |records| && InForce(records, i, resetMs, now) ==> records[i].accountId.Some?
  }

  lemma {:induction false} ResolvedIffNamed(records: seq<AccountStateRecord>, resetMs: int, now: int)
    requires SortedByTs(records) && resetMs <= now
    ensures ResolvedSince(records, resetMs, now)
       <==> forall ts :: resetMs <= ts <= now && LastAtOrBefore(records, ts).Some? ==>
              LastAtOrBefore(records, ts).value.accountId.Some?
  {
    if ResolvedSince(records, resetMs, now) {
      forall ts | resetMs <= ts <= now && LastAtOrBefore(records, ts).Some?
        ensures LastAtOrBefore(records, ts).value.accountId.Some?
      {
        FirstAtOrBefore(records, ts);
        LastAtOrBeforeBeyond(records, ts, 0);
        var k :| 0 <= k < |records| && LastAtOrBefore(records, ts) == Some(records[k]) && Governs(records, k, ts);
        assert InForce(records, k, resetMs, now);
      }
    } else {
      var i :| 0 <= i < |records| && InForce(records, i, resetMs, now) && records[i].accountId.None?;
      var ts := if records[i].ts < resetMs then resetMs else records[i].ts;
      LastAtOrBeforeAt(records, ts, i);
      assert LastAtOrBefore(records, ts) == Some(records[i]);
    }
  }

  lemma {:induction false} FirstAtOrBefore(records: seq<AccountStateRecord>, ts: int)
    requires SortedByTs(records) && LastAtOrBefore(records, ts).Some?
    ensures records != [] && records[0].ts <= ts
  {
    if records[|records| - 1].ts > ts { FirstAtOrBefore(records[..|records| - 1], ts); }
  }

  /**
   * The documented premise, "this machine was on another account ever since the reset", holds for a window inferred
   * empty if and only if every record in force since then carries an account's id.
   */
  lemma {:induction false} RolledMeansElsewhereIff(
    records: seq<AccountStateRecord>, key: string, liveAccountId: Option<string>, readings: map<string, Reading>,
    now: int)
    requires SortedByTs(records) && key in RosterUpTo(records, |records|)
    requires ReportedWindow(RosterUpTo(records, |records|)[key], liveAccountId, readings, now).freshness == Rolled
    ensures RosterUpTo(records, |records|)[key].accountId == Some(key)
    ensures var resetMs := ReadingOf(RosterUpTo(records, |records|)[key], readings).value.resetMs.value;
            (forall ts :: resetMs <= ts <= now ==> OnSomebodyElse(records, key, ts))
            <==> ResolvedSince(records, resetMs, now)
  {
    var resetMs := ReadingOf(RosterUpTo(records, |records|)[key], readings).value.resetMs.value;
    var _, _ := RosterDescribesAccounts(records, |records|, key);
    ResolvedIffNamed(records, resetMs, now);
    if ResolvedSince(records, resetMs, now) {
      forall ts | resetMs <= ts <= now ensures OnSomebodyElse(records, key, ts) {
        RolledMeansAway(records, key, liveAccountId, readings, now, ts);
      }
    } else {
      var ts :| resetMs <= ts <= now && LastAtOrBefore(records, ts).Some?
        && LastAtOrBefore(records, ts).value.accountId.None?;
      assert !OnSomebodyElse(records, key, ts);
    }
  }

  function OnAccount(ts: int, id: string, email: string): AccountStateRecord {
    BuildRecord(Some(CurrentAccount(Some(Identity(Some(id), Some(email), None)))), ts, "m", "p", "r", 5, "s")
  }

  /** The record written while no identity can be read. */
  function Unresolved(ts: int): AccountStateRecord {
    BuildRecord(Some(CurrentAccount(None)), ts, "m", "p", "r", 5, "s")
  }

  /** On A at 0, unresolved from 5 on, reset at 7: A's window is inferred empty at 10, and nothing names another
      account. The roster lists the unresolved state as one more account, and nothing is known of it. */
  lemma UnresolvedCountsAsAway()
    ensures var records, readings :=
              [OnAccount(0, "A", "x"), Unresolved(5)], map["A" := Reading(Some(40), Some(7), 1, false)];
            var roster := RosterUpTo(records, 2);
            && roster.Keys == {"A", "unknown"} && roster["unknown"].accountId.None?
            && ReportedWindow(roster["A"], None, readings, 10) == MkWindow(Some(0), None, Rolled)
            && forall ts :: 7 <= ts <= 10 ==> !OnSomebodyElse(records, "A", ts)
  {
    AwayInTwo(OnAccount(0, "A", "x"), Unresolved(5));
  }

  /** Likewise when the id is missing but the e-mail is still A's own. */
  lemma OwnEmailCountsAsAway()
    ensures var own :=
              BuildRecord(Some(CurrentAccount(Some(Identity(None, Some("x"), None)))), 5, "m", "p", "r", 5, "s");
            var records, readings := [OnAccount(0, "A", "x"), own], map["A" := Reading(Some(40), Some(7), 1, false)];
            && own.email == records[0].email && "A" in RosterUpTo(records, 2)
            && ReportedWindow(RosterUpTo(records, 2)["A"], None, readings, 10) == MkWindow(Some(0), None, Rolled)
            && forall ts :: 7 <= ts <= 10 ==> !OnSomebodyElse(records, "A", ts)
  {
    AwayInTwo(OnAccount(0, "A", "x"),
      BuildRecord(Some(CurrentAccount(Some(Identity(None, Some("x"), None)))), 5, "m", "p", "r", 5, "s"));
  }

  /** The roster of two records that carry different keys. */
  lemma {:induction false} AwayInTwo(a: AccountStateRecord, b: AccountStateRecord)
    requires RosterKey(a) != "" && RosterKey(b) != "" && RosterKey(a) != RosterKey(b)
    ensures var roster := RosterUpTo([a, b], 2);
            && roster.Keys == {RosterKey(a), RosterKey(b)}
            && roster[RosterKey(a)].accountId == a.accountId && roster[RosterKey(a)].leftAt == Some(b.ts)
            && roster[RosterKey(b)].accountId == b.accountId
  {
    var records := [a, b];
    var one := RosterUpTo(records, 1);
    assert RosterUpTo(records, 0) == map[];
    assert LeftFrom(records, 1, RosterKey(a)) == Some(b.ts);
    assert one == map[RosterKey(a) := EntryFor(records, 0, map[])];
    assert RosterUpTo(records, 2) == one[RosterKey(b) := EntryFor(records, 1, one)];
  }

  // ---- Headroom ----

  /** One account as the selection sees it: its gates, and whether a queried model has no bucket. */
  datatype Candidate = Candidate(gates: seq<AccountWindow>, modelGateMissing: bool)

  datatype Verdict = Available | NoneWithHeadroom | Indeterminate

  predicate Spent(c: Candidate, threshold: int) {
    exists i :: 0 <= i < |c.gates| && c.gates[i].percent.Some? && c.gates[i].percent.value >= threshold
  }

  predicate Undecided(c: Candidate) {
    c.modelGateMissing || exists i :: 0 <= i < |c.gates| && c.gates[i].percent.None?
  }

  datatype Standing = Match | Exhausted | Undecidable

  function StandingOf(c: Candidate, threshold: int): Standing {
    if Spent(c, threshold) then Exhausted else if Undecided(c) then Undecidable else Match
  }

  function WithStanding(accounts: seq<Candidate>, standing: Standing, threshold: int): (out: seq<Candidate>)
    ensures forall c :: c in out <==> c in accounts && StandingOf(c, threshold) == standing
  {
    if accounts == [] then []
    else
      var c := accounts[|accounts| - 1];
      WithStanding(accounts[..|accounts| - 1], standing, threshold)
        + if StandingOf(c, threshold) == standing then [c] else []
  }

  lemma {:induction false} WithStandingStep(accounts: seq<Candidate>, i: nat, standing: Standing, threshold: int)
    requires i < |accounts|
    ensures WithStanding(accounts[..i + 1], standing, threshold)
            == WithStanding(accounts[..i], standing, threshold)
              + if StandingOf(accounts[i], threshold) == standing then [accounts[i]] else []
  {
    assert accounts[..i + 1][..i] == accounts[..i];
  }

  /** The gate is known to stand at the threshold or above. */
  predicate KnownSpent(g: AccountWindow, threshold: int) {
    g.percent.Some? && g.percent.value >= threshold
  }

  /** What the standings mean, gate by gate: exhausted by one gate known to be spent; a match when every gate is known
      and below the threshold and none is missing; and undecidable otherwise. */
  lemma {:induction false} StandingMeans(c: Candidate, threshold: int)
    ensures StandingOf(c, threshold) == Exhausted <==> exists g :: g in c.gates && KnownSpent(g, threshold)
    ensures StandingOf(c, threshold) == Match <==>
              !c.modelGateMissing && forall g :: g in c.gates ==> g.percent.Some? && g.percent.value < threshold
  {
    if exists g :: g in c.gates && KnownSpent(g, threshold) {
      var g :| g in c.gates && KnownSpent(g, threshold);
      var i :| 0 <= i < |c.gates| && c.gates[i] == g;
    }
    if StandingOf(c, threshold) == Exhausted {
      var i :| 0 <= i < |c.gates| && c.gates[i].percent.Some? && c.gates[i].percent.value >= threshold;
      assert c.gates[i] in c.gates && KnownSpent(c.gates[i], threshold);
    }
    if forall g :: g in c.gates ==> g.percent.Some? && g.percent.value < threshold {
      forall i | 0 <= i < |c.gates| ensures c.gates[i].percent.Some? && c.gates[i].percent.value < threshold {
        assert c.gates[i] in c.gates;
      }
    }
  }

  /** The true percentages are at least the reported ones, wherever there are any. */
  predicate AtLeastReported(truth: seq<int>, gates: seq<AccountWindow>) {
    |truth| == |gates| && forall i :: 0 <= i < |gates| && gates[i].percent.Some? ==> gates[i].percent.value <= truth[i]
  }

  /** Excluding an account is safe on lower bounds: some true percentage is at the threshold or above. A match is not:
      it needs exact ones. */
  lemma {:induction false} ExclusionIsSafe(c: Candidate, truth: seq<int>, threshold: int)
    requires AtLeastReported(truth, c.gates) && StandingOf(c, threshold) == Exhausted
    ensures exists i :: 0 <= i < |truth| && truth[i] >= threshold
  {
    var i :| 0 <= i < |c.gates| && c.gates[i].percent.Some? && c.gates[i].percent.value >= threshold;
    assert truth[i] >= threshold;
  }

  /** Splits the accounts by standing, in order. "No headroom" is claimed exactly when every account is
      positively spent, which includes the case of no account at all. */
  method SelectAccountsWithHeadroom(accounts: seq<Candidate>, threshold: int)
    returns (matches: seq<Candidate>, exhausted: seq<Candidate>, undecidable: seq<Candidate>, verdict: Verdict)
    ensures matches == WithStanding(accounts, Match, threshold)
    ensures exhausted == WithStanding(accounts, Exhausted, threshold)
    ensures undecidable == WithStanding(accounts, Undecidable, threshold)
    ensures verdict == NoneWithHeadroom <==> forall c :: c in accounts ==> StandingOf(c, threshold) == Exhausted
    ensures verdict == Available <==> exists c :: c in accounts && StandingOf(c, threshold) == Match
  {
    matches, exhausted, undecidable := [], [], [];
    for i := 0 to |accounts|
      invariant matches == WithStanding(accounts[..i], Match, threshold)
      invariant exhausted == WithStanding(accounts[..i], Exhausted, threshold)
      invariant undecidable == WithStanding(accounts[..i], Undecidable, threshold)
    {
      WithStandingStep(accounts, i, Match, threshold);
      WithStandingStep(accounts, i, Exhausted, threshold);
      WithStandingStep(accounts, i, Undecidable, threshold);
      var c := accounts[i];
      if Spent(c, threshold) {
        exhausted := exhausted + [c];
      } else if Undecided(c) {
        undecidable := undecidable + [c];
      } else {
        matches := matches + [c];
      }
    }
    assert accounts[..|accounts|] == accounts;
    verdict := if matches != [] then Available else if undecidable != [] then Indeterminate else NoneWithHeadroom;
    if matches != [] { assert matches[0] in matches; }
    if undecidable != [] { assert undecidable[0] in undecidable; }
  }

  /** With no account known at all, the verdict is still that none has headroom. */
  method NobodyKnown(threshold: int) returns (verdict: Verdict)
    ensures verdict == NoneWithHeadroom
  {
    var _, _, _, v := SelectAccountsWithHeadroom([], threshold);
    verdict := v;
  }
}
