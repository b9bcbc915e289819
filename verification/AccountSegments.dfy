/** Half-open account segments read off the timeline, and the per-account windows built on them. */
module AccountSegments {
  import opened Wrappers
  import opened AccountTimeline
  import StableSort
  import Sums

  datatype AccountSegment = AccountSegment(
    accountId: string, email: Option<string>, plan: string, startMs: int, endMs: Option<int>)

  function Ts(r: AccountStateRecord): int {
    r.ts
  }

  function Sorted(records: seq<AccountStateRecord>): seq<AccountStateRecord> {
    StableSort.Sort(records, Ts)
  }

  predicate LastIsOpen(out: seq<AccountSegment>) {
    out != [] && out[|out| - 1].endMs.None?
  }

  /** One record: a different account closes the open segment, and a known account opens one. */
  function SegmentStep(out: seq<AccountSegment>, r: AccountStateRecord): seq<AccountSegment> {
    if LastIsOpen(out) && r.accountId == Some(out[|out| - 1].accountId) then out
    else
      var closed := if LastIsOpen(out) then out[|out| - 1 := out[|out| - 1].(endMs := Some(r.ts))] else out;
      if r.accountId.Some? then closed + [AccountSegment(r.accountId.value, r.email, r.plan, r.ts, None)] else closed
  }

  function Segments(sorted: seq<AccountStateRecord>): seq<AccountSegment> {
    if sorted == [] then [] else SegmentStep(Segments(sorted[..|sorted| - 1]), sorted[|sorted| - 1])
  }

  method SegmentsFromRecords(records: seq<AccountStateRecord>) returns (out: seq<AccountSegment>)
    ensures out == Segments(Sorted(records))
  {
    var sorted := Sorted(records);
    out := [];
    for i := 0 to |sorted|
      invariant out == Segments(sorted[..i])
    {
      assert sorted[..i + 1][..i] == sorted[..i];
      var r := sorted[i];
      var open := out != [] && out[|out| - 1].endMs.None?;
      if open && r.accountId == Some(out[|out| - 1].accountId) {
        continue;
      }
      if open {
        out := out[|out| - 1 := out[|out| - 1].(endMs := Some(r.ts))];
      }
      if r.accountId.Some? {
        out := out + [AccountSegment(r.accountId.value, r.email, r.plan, r.ts, None)];
      }
    }
    assert sorted[..|sorted|] == sorted;
  }

  predicate Contains(seg: AccountSegment, ts: int, nowMs: int) {
    seg.startMs <= ts < seg.endMs.GetOr(nowMs)
  }

  predicate InSegments(ts: int, segments: seq<AccountSegment>, nowMs: int) {
    exists i :: 0 <= i < |segments| && Contains(segments[i], ts, nowMs)
  }

  /** The segments of one account, as the target resolution keeps them. */
  function Own(segments: seq<AccountSegment>, accountId: string): (own: seq<AccountSegment>)
    ensures forall seg :: seg in own <==> seg in segments && seg.accountId == accountId
  {
    if segments == [] then []
    else (if segments[0].accountId == accountId then [segments[0]] else []) + Own(segments[1..], accountId)
  }

  /** The account named by the last record at or before `ts`, if there is one and it names any. */
  function AccountAt(sorted: seq<AccountStateRecord>, ts: int): Option<string> {
    var r := LastAtOrBefore(sorted, ts);
    if r.None? then None else r.value.accountId
  }

  /** Every segment is opened by a record, and carries its account, e-mail, plan and instant. */
  lemma {:induction false} SegmentDescribesItsRecord(sorted: seq<AccountStateRecord>, seg: AccountSegment)
    requires seg in Segments(sorted)
    ensures exists r :: r in sorted && seg.accountId == r.accountId.GetOr("") && r.accountId.Some?
                        && seg.email == r.email && seg.plan == r.plan && seg.startMs == r.ts
  {
    var init, last := sorted[..|sorted| - 1], sorted[|sorted| - 1];
    assert sorted == init + [last];
    if exists was :: was in Segments(init) && OpenedAs(was, seg) {
      var was :| was in Segments(init) && OpenedAs(was, seg);
      SegmentDescribesItsRecord(init, was);
    } else {
      OnlyTheLastIsNew(Segments(init), last, seg);
    }
  }

  /** The same segment, perhaps before it was closed. */
  predicate OpenedAs(was: AccountSegment, seg: AccountSegment) {
    seg == was || seg == was.(endMs := seg.endMs)
  }

  lemma {:induction false} OnlyTheLastIsNew(out: seq<AccountSegment>, r: AccountStateRecord, seg: AccountSegment)
    requires seg in SegmentStep(out, r) && forall was :: was in out ==> !OpenedAs(was, seg)
    ensures r.accountId.Some? && seg == AccountSegment(r.accountId.value, r.email, r.plan, r.ts, None)
  {
    var closed := if LastIsOpen(out) then out[|out| - 1 := out[|out| - 1].(endMs := Some(r.ts))] else out;
    if seg in closed {
      var i :| 0 <= i < |closed| && closed[i] == seg;
      assert out[i] in out && OpenedAs(out[i], seg);
    }
  }

  // ---- Segments partition time ----

  /** Some segment of `a` holds `ts`, the open one reaching arbitrarily far. */
  predicate Holds(segments: seq<AccountSegment>, a: string, ts: int) {
    exists i :: 0 <= i < |segments| && segments[i].accountId == a
      && segments[i].startMs <= ts && (segments[i].endMs.Some? ==> ts < segments[i].endMs.value)
  }

  /** Shape of the segments after reading `sorted`: closed parts end by the last record, and the last
      segment is open exactly when the last record names its account. */
  predicate Shape(segments: seq<AccountSegment>, sorted: seq<AccountStateRecord>) {
    if sorted == [] then segments == []
    else
      var r := sorted[|sorted| - 1];
      && (forall i :: 0 <= i < |segments| ==>
            segments[i].startMs <= r.ts && (segments[i].endMs.Some? ==> segments[i].endMs.value <= r.ts))
      && (forall i :: 0 <= i < |segments| - 1 ==> segments[i].endMs.Some?)
      && (LastIsOpen(segments) <==> r.accountId.Some?)
      && (r.accountId.Some? ==> segments[|segments| - 1].accountId == r.accountId.value)
  }

  lemma {:induction false} SegmentsShape(sorted: seq<AccountStateRecord>)
    requires SortedByTs(sorted)
    ensures Shape(Segments(sorted), sorted)
  {
    if sorted != [] {
      var init := sorted[..|sorted| - 1];
      SegmentsShape(init);
      if init != [] { assert init[|init| - 1].ts <= sorted[|sorted| - 1].ts; }
    }
  }

  /** Before the new record's instant, reading it changes nothing. */
  lemma {:induction false} StepKeepsPast(out: seq<AccountSegment>, sorted: seq<AccountStateRecord>,
                                         r: AccountStateRecord, a: string, ts: int)
    requires Shape(out, sorted) && (sorted != [] ==> sorted[|sorted| - 1].ts <= r.ts)
    requires ts < r.ts
    ensures Holds(SegmentStep(out, r), a, ts) <==> Holds(out, a, ts)
  {
    var next := SegmentStep(out, r);
    if Holds(out, a, ts) {
      var i :| 0 <= i < |out| && out[i].accountId == a
        && out[i].startMs <= ts && (out[i].endMs.Some? ==> ts < out[i].endMs.value);
      assert next[i].accountId == a && next[i].startMs <= ts && (next[i].endMs.Some? ==> ts < next[i].endMs.value);
    }
    if Holds(next, a, ts) {
      var i :| 0 <= i < |next| && next[i].accountId == a
        && next[i].startMs <= ts && (next[i].endMs.Some? ==> ts < next[i].endMs.value);
      assert i < |out| && out[i].accountId == a && out[i].startMs <= ts
        && (out[i].endMs.Some? ==> ts < out[i].endMs.value);
    }
  }

  /** From its instant on, the new record alone decides. */
  lemma {:induction false} StepDecidesPresent(out: seq<AccountSegment>, sorted: seq<AccountStateRecord>,
                                              r: AccountStateRecord, a: string, ts: int)
    requires Shape(out, sorted) && Shape(SegmentStep(out, r), sorted + [r])
    requires (sorted != [] ==> sorted[|sorted| - 1].ts <= r.ts) && r.ts <= ts
    ensures Holds(SegmentStep(out, r), a, ts) <==> r.accountId == Some(a)
  {
    var next := SegmentStep(out, r);
    if r.accountId == Some(a) {
      assert next[|next| - 1].accountId == a && next[|next| - 1].startMs <= ts;
    }
  }

  lemma {:induction false} SegmentsHoldTheAccount(sorted: seq<AccountStateRecord>, a: string, ts: int)
    requires SortedByTs(sorted)
    ensures Holds(Segments(sorted), a, ts) <==> AccountAt(sorted, ts) == Some(a)
  {
    if sorted != [] {
      var init, r := sorted[..|sorted| - 1], sorted[|sorted| - 1];
      SegmentsHoldTheAccount(init, a, ts);
      SegmentsShape(init);
      SegmentsShape(sorted);
      assert sorted == init + [r];
      if ts < r.ts {
        StepKeepsPast(Segments(init), init, r, a, ts);
      } else {
        StepDecidesPresent(Segments(init), init, r, a, ts);
      }
    }
  }

  lemma {:induction false} SortedTimeline(records: seq<AccountStateRecord>)
    ensures SortedByTs(Sorted(records))
    ensures SortedByTs(records) ==> Sorted(records) == records
  {
    StableSort.SortSorts(records, Ts);
    var sorted := Sorted(records);
    forall i, j | 0 <= i < j < |sorted| ensures sorted[i].ts <= sorted[j].ts {
      assert Ts(sorted[i]) <= Ts(sorted[j]);
    }
    if SortedByTs(records) {
      assert forall i, j :: 0 <= i < j < |records| ==> Ts(records[i]) <= Ts(records[j]);
      StableSort.SortedIsItsOwnSort(records, Ts);
    }
  }

  /** Before now, the account's own segments hold exactly what its segments hold. */
  lemma {:induction false} OwnHolds(segments: seq<AccountSegment>, a: string, ts: int, nowMs: int)
    requires ts < nowMs
    ensures InSegments(ts, Own(segments, a), nowMs) <==> Holds(segments, a, ts)
  {
    var own := Own(segments, a);
    if InSegments(ts, own, nowMs) {
      var i :| 0 <= i < |own| && Contains(own[i], ts, nowMs);
      assert own[i] in segments;
    }
    if Holds(segments, a, ts) {
      var i :| 0 <= i < |segments| && segments[i].accountId == a
        && segments[i].startMs <= ts && (segments[i].endMs.Some? ==> ts < segments[i].endMs.value);
      assert segments[i] in own && Contains(segments[i], ts, nowMs);
    }
  }

  /** Before now, an instant lies in a segment of `a` exactly when the last record at or before it
      names `a`. */
  lemma {:induction false} SegmentsPartitionTime(records: seq<AccountStateRecord>, a: string, ts: int, nowMs: int)
    requires ts < nowMs
    ensures InSegments(ts, Own(Segments(Sorted(records)), a), nowMs) <==> AccountAt(Sorted(records), ts) == Some(a)
  {
    SortedTimeline(records);
    SegmentsHoldTheAccount(Sorted(records), a, ts);
    OwnHolds(Segments(Sorted(records)), a, ts, nowMs);
  }

  /** On a sorted timeline the segments, the reference definition and the binary search agree. */
  method SegmentsAgreeWithBinarySearch(records: seq<AccountStateRecord>, a: string, ts: int, nowMs: int)
    returns (bySegments: bool, bySearch: bool)
    requires SortedByTs(records) && ts < nowMs
    ensures bySegments == bySearch
    ensures bySearch <==> AccountAt(records, ts) == Some(a)
  {
    var segments := SegmentsFromRecords(records);
    var state := ResolveStateAt(records, ts);
    SortedTimeline(records);
    SegmentsPartitionTime(records, a, ts, nowMs);
    bySegments := InSegments(ts, Own(segments, a), nowMs);
    bySearch := state.Some? && state.value.accountId == Some(a);
  }

  // ---- Per-account windows ----

  datatype Event = Event(ts: int, tokens: nat)

  function EventsForAccountInWindow(events: seq<Event>, own: seq<AccountSegment>, fromMs: int, untilMs: int,
                                    nowMs: int): seq<Event> {
    if events == [] then []
    else
      var e := events[|events| - 1];
      EventsForAccountInWindow(events[..|events| - 1], own, fromMs, untilMs, nowMs) +
      if fromMs <= e.ts < untilMs && InSegments(e.ts, own, nowMs) then [e] else []
  }

  /** The events of the window whose instant has a resolved account. */
  function Resolved(events: seq<Event>, sorted: seq<AccountStateRecord>, fromMs: int, untilMs: int): seq<Event> {
    if events == [] then []
    else
      var e := events[|events| - 1];
      Resolved(events[..|events| - 1], sorted, fromMs, untilMs) +
      if fromMs <= e.ts < untilMs && AccountAt(sorted, e.ts).Some? then [e] else []
  }

  /** An account's window list is one bucket of the resolved events. */
  lemma {:induction false} WindowListIsBucket(
    events: seq<Event>, records: seq<AccountStateRecord>, a: string, fromMs: int, untilMs: int, nowMs: int,
    accountOf: Event -> Option<string>)
    requires untilMs <= nowMs && forall e :: accountOf(e) == AccountAt(Sorted(records), e.ts)
    ensures EventsForAccountInWindow(events, Own(Segments(Sorted(records)), a), fromMs, untilMs, nowMs)
            == Sums.Group(Resolved(events, Sorted(records), fromMs, untilMs), accountOf, Some(a))
  {
    if events != [] {
      var init, e := events[..|events| - 1], events[|events| - 1];
      WindowListIsBucket(init, records, a, fromMs, untilMs, nowMs, accountOf);
      if fromMs <= e.ts < untilMs {
        SegmentsPartitionTime(records, a, e.ts, nowMs);
      }
      var before := Resolved(init, Sorted(records), fromMs, untilMs);
      assert (before + [e])[..|before|] == before;
      assert before + [] == before;
    }
  }

  function SumOfWindows(
    accounts: seq<string>, events: seq<Event>, segments: seq<AccountSegment>,
    fromMs: int, untilMs: int, nowMs: int, w: Event -> int): int
  {
    if accounts == [] then 0
    else
      Sums.Total(EventsForAccountInWindow(events, Own(segments, accounts[0]), fromMs, untilMs, nowMs), w)
      + SumOfWindows(accounts[1..], events, segments, fromMs, untilMs, nowMs, w)
  }

  lemma {:induction false} WindowsAreBuckets(
    accounts: seq<string>, keys: seq<Option<string>>, events: seq<Event>, records: seq<AccountStateRecord>,
    fromMs: int, untilMs: int, nowMs: int, accountOf: Event -> Option<string>, w: Event -> int)
    requires untilMs <= nowMs && forall e :: accountOf(e) == AccountAt(Sorted(records), e.ts)
    requires |keys| == |accounts| && forall i :: 0 <= i < |keys| ==> keys[i] == Some(accounts[i])
    ensures SumOfWindows(accounts, events, Segments(Sorted(records)), fromMs, untilMs, nowMs, w)
            == Sums.SumGroups(keys, Resolved(events, Sorted(records), fromMs, untilMs), accountOf, w)
  {
    if accounts != [] {
      WindowListIsBucket(events, records, accounts[0], fromMs, untilMs, nowMs, accountOf);
      WindowsAreBuckets(accounts[1..], keys[1..], events, records, fromMs, untilMs, nowMs, accountOf, w);
    }
  }

  lemma {:induction false} ResolvedAccountsListed(events: seq<Event>, sorted: seq<AccountStateRecord>, fromMs: int,
                                                  untilMs: int, accounts: seq<string>)
    requires forall i :: 0 <= i < |events| && AccountAt(sorted, events[i].ts).Some? ==>
             AccountAt(sorted, events[i].ts).value in accounts
    ensures forall e :: e in Resolved(events, sorted, fromMs, untilMs) ==>
              AccountAt(sorted, e.ts).Some? && AccountAt(sorted, e.ts).value in accounts
  {
    if events != [] {
      ResolvedAccountsListed(events[..|events| - 1], sorted, fromMs, untilMs, accounts);
    }
  }

  /** Whatever figure is summed, the window lists of all accounts add up to the events with a resolved
      account: nothing is counted twice and nothing resolved is dropped. */
  lemma {:induction false} WindowsSumToResolvedEvents(
    accounts: seq<string>, events: seq<Event>, records: seq<AccountStateRecord>,
    fromMs: int, untilMs: int, nowMs: int, w: Event -> int)
    requires untilMs <= nowMs && Sums.Distinct(accounts)
    requires forall i :: 0 <= i < |events| && AccountAt(Sorted(records), events[i].ts).Some?
                         ==> AccountAt(Sorted(records), events[i].ts).value in accounts
    ensures SumOfWindows(accounts, events, Segments(Sorted(records)), fromMs, untilMs, nowMs, w)
            == Sums.Total(Resolved(events, Sorted(records), fromMs, untilMs), w)
  {
    var sorted := Sorted(records);
    var resolved := Resolved(events, sorted, fromMs, untilMs);
    var accountOf := (e: Event) => AccountAt(sorted, e.ts);
    var keys := seq(|accounts|, i requires 0 <= i < |accounts| => Some(accounts[i]));
    WindowsAreBuckets(accounts, keys, events, records, fromMs, untilMs, nowMs, accountOf, w);
    ResolvedAccountsListed(events, sorted, fromMs, untilMs, accounts);
    forall i | 0 <= i < |resolved| ensures accountOf(resolved[i]) in keys {
      assert resolved[i] in resolved;
      var j :| 0 <= j < |accounts| && accounts[j] == AccountAt(sorted, resolved[i].ts).value;
      assert keys[j] == accountOf(resolved[i]);
    }
    Sums.BucketsSumToWhole(keys, resolved, accountOf, w);
  }
}
