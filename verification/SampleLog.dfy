/** The timeline's readers against the full log of samples: what survives the compression, and what does not. */
module SampleLog {
  import opened Wrappers
  import opened AccountTimeline
  import opened AccountSegments
  import opened AccountRoster

  /** No field holds the separator, and no account is named like the symbol for none. */
  predicate Clean(samples: seq<AccountStateRecord>) {
    forall i :: 0 <= i < |samples| ==> SeparatorFree(samples[i]) && samples[i].accountId != Some(NO_ACCOUNT)
  }

  lemma {:induction false} LastIsARecord(records: seq<AccountStateRecord>, ts: int)
    ensures LastAtOrBefore(records, ts).Some? ==> LastAtOrBefore(records, ts).value in records
  {
    if records != [] && records[|records| - 1].ts > ts { LastIsARecord(records[..|records| - 1], ts); }
  }

  lemma {:induction false} SameKeySameAccount(a: AccountStateRecord, b: AccountStateRecord)
    requires SeparatorFree(a) && SeparatorFree(b) && a.accountId != Some(NO_ACCOUNT) && b.accountId != Some(NO_ACCOUNT)
    requires DiscreteKey(a) == DiscreteKey(b)
    ensures a.accountId == b.accountId
  {
    SameKeyIffSameState(a, b);
  }

  /** The compressed timeline names the same account at every instant as the log of all samples. */
  lemma {:induction false} AccountAtRefines(samples: seq<AccountStateRecord>, ts: int)
    requires SortedByTs(samples) && Clean(samples)
    ensures AccountAt(Changes(samples), ts) == AccountAt(samples, ts)
    ensures LastAtOrBefore(Changes(samples), ts).Some? <==> LastAtOrBefore(samples, ts).Some?
  {
    TimelineRefinesSampleLog(samples, ts);
    ChangesStaySorted(samples);
    LastIsARecord(samples, ts);
    LastIsARecord(Changes(samples), ts);
    if LastAtOrBefore(samples, ts).Some? {
      SameKeySameAccount(LastAtOrBefore(Changes(samples), ts).value, LastAtOrBefore(samples, ts).value);
    }
  }

  /** Before now, an instant lies in an account's segments exactly when the last sample at or before it names the
      account. */
  lemma {:induction false} SegmentsFollowSamples(samples: seq<AccountStateRecord>, a: string, ts: int, nowMs: int)
    requires SortedByTs(samples) && Clean(samples) && ts < nowMs
    ensures InSegments(ts, Own(Segments(Sorted(Changes(samples))), a), nowMs) <==> AccountAt(samples, ts) == Some(a)
  {
    ChangesStaySorted(samples);
    SortedTimeline(Changes(samples));
    SegmentsPartitionTime(Changes(samples), a, ts, nowMs);
    AccountAtRefines(samples, ts);
  }

  /** A window inferred empty is sound against the full log: from its reset instant on, no sample in force names the
      account. */
  lemma {:induction false} RolledMeansNeverSampled(
    samples: seq<AccountStateRecord>, a: string, liveAccountId: Option<string>, readings: map<string, Reading>,
    now: int, ts: int)
    requires SortedByTs(samples) && Clean(samples) && a in RosterUpTo(Changes(samples), |Changes(samples)|)
    requires var e := RosterUpTo(Changes(samples), |Changes(samples)|)[a];
             ReportedWindow(e, liveAccountId, readings, now).freshness == Rolled
               && ReadingOf(e, readings).value.resetMs.value <= ts
    ensures LastAtOrBefore(samples, ts).Some? && AccountAt(samples, ts) != Some(a)
  {
    ChangesStaySorted(samples);
    RolledMeansAway(Changes(samples), a, liveAccountId, readings, now, ts);
    AccountAtRefines(samples, ts);
  }

  /** The timeline lacks an account at the same instants as the log of all samples. */
  lemma {:induction false} ResolvedInBoth(samples: seq<AccountStateRecord>, resetMs: int, now: int)
    requires SortedByTs(samples) && Clean(samples) && resetMs <= now
    ensures ResolvedSince(samples, resetMs, now) <==> ResolvedSince(Changes(samples), resetMs, now)
  {
    ChangesStaySorted(samples);
    ResolvedIffNamed(samples, resetMs, now);
    ResolvedIffNamed(Changes(samples), resetMs, now);
    if !ResolvedSince(samples, resetMs, now) {
      var ts :| resetMs <= ts <= now && LastAtOrBefore(samples, ts).Some?
        && LastAtOrBefore(samples, ts).value.accountId.None?;
      AccountAtRefines(samples, ts);
    }
    if !ResolvedSince(Changes(samples), resetMs, now) {
      var ts :| resetMs <= ts <= now && LastAtOrBefore(Changes(samples), ts).Some?
                && LastAtOrBefore(Changes(samples), ts).value.accountId.None?;
      AccountAtRefines(samples, ts);
    }
  }

  lemma {:induction false} ElsewhereInBoth(samples: seq<AccountStateRecord>, a: string, ts: int)
    requires SortedByTs(samples) && Clean(samples)
    ensures OnSomebodyElse(samples, a, ts) <==> OnSomebodyElse(Changes(samples), a, ts)
  {
    AccountAtRefines(samples, ts);
  }

  /** By the log of all samples, the machine was on another account ever since the reset if and only if every sample in
      force since then carries an account's id. */
  lemma {:induction false} RolledMeansSampledElsewhereIff(
    samples: seq<AccountStateRecord>, a: string, liveAccountId: Option<string>, readings: map<string, Reading>,
    now: int)
    requires SortedByTs(samples) && Clean(samples) && a in RosterUpTo(Changes(samples), |Changes(samples)|)
    requires var e := RosterUpTo(Changes(samples), |Changes(samples)|)[a];
             ReportedWindow(e, liveAccountId, readings, now).freshness == Rolled
    ensures var resetMs := ReadingOf(RosterUpTo(Changes(samples), |Changes(samples)|)[a], readings).value.resetMs.value;
            (forall ts :: resetMs <= ts <= now ==> OnSomebodyElse(samples, a, ts))
            <==> ResolvedSince(samples, resetMs, now)
  {
    var changes := Changes(samples);
    var resetMs := ReadingOf(RosterUpTo(changes, |changes|)[a], readings).value.resetMs.value;
    ChangesStaySorted(samples);
    RolledMeansElsewhereIff(changes, a, liveAccountId, readings, now);
    ResolvedInBoth(samples, resetMs, now);
    forall ts ensures OnSomebodyElse(samples, a, ts) <==> OnSomebodyElse(changes, a, ts) {
      ElsewhereInBoth(samples, a, ts);
    }
  }

  // ---- Which accounts the roster lists ----

  /** The sample that starts the log, or one whose key differs from the sample before it, is written to the timeline. */
  predicate Recorded(samples: seq<AccountStateRecord>, i: nat) {
    i < |samples| && (i == 0 || DiscreteKey(samples[i]) != DiscreteKey(samples[i - 1]))
  }

  predicate RecordsIt(samples: seq<AccountStateRecord>, i: nat, r: AccountStateRecord) {
    Recorded(samples, i) && samples[i] == r
  }

  lemma {:induction false} LastRecorded(samples: seq<AccountStateRecord>)
    requires samples != []
    ensures var init, last := samples[..|samples| - 1], |samples| - 1;
            Changes(samples) == if Recorded(samples, last) then Changes(init) + [samples[last]] else Changes(init)
  {
    ChangesKeepLastKey(samples[..|samples| - 1]);
  }

  lemma {:induction false} RecordedEarlier(samples: seq<AccountStateRecord>, init: seq<AccountStateRecord>, i: nat,
                                           r: AccountStateRecord)
    requires samples != [] && init == samples[..|samples| - 1] && i < |init|
    ensures RecordsIt(samples, i, r) <==> RecordsIt(init, i, r)
  {}

  lemma {:induction false} ChangesAreRecorded(samples: seq<AccountStateRecord>, r: AccountStateRecord)
    ensures r in Changes(samples) <==> exists i: nat :: RecordsIt(samples, i, r)
  {
    if samples != [] {
      var init, last := samples[..|samples| - 1], |samples| - 1;
      ChangesAreRecorded(init, r);
      LastRecorded(samples);
      if r in Changes(samples) && !RecordsIt(samples, last, r) {
        assert r in Changes(init);
        var i: nat :| RecordsIt(init, i, r);
        RecordedEarlier(samples, init, i, r);
      }
      if exists i: nat :: RecordsIt(samples, i, r) {
        var i: nat :| RecordsIt(samples, i, r);
        if i < last { RecordedEarlier(samples, init, i, r); }
      }
    }
  }

  /** An account is listed if and only if some sample of it differs in its key from the sample before. */
  lemma {:induction false} ListedIffRecorded(samples: seq<AccountStateRecord>, key: string)
    ensures key in RosterUpTo(Changes(samples), |Changes(samples)|)
       <==> key != "" && exists i: nat :: Recorded(samples, i) && RosterKey(samples[i]) == key
  {
    var changes := Changes(samples);
    var _, _ := RosterDescribesAccounts(changes, |changes|, key);
    if exists i :: 0 <= i < |changes| && RosterKey(changes[i]) == key {
      var i :| 0 <= i < |changes| && RosterKey(changes[i]) == key;
      ChangesAreRecorded(samples, changes[i]);
      var j: nat :| RecordsIt(samples, j, changes[i]);
      assert Recorded(samples, j) && RosterKey(samples[j]) == key;
    }
    if exists i: nat :: Recorded(samples, i) && RosterKey(samples[i]) == key {
      var i: nat :| Recorded(samples, i) && RosterKey(samples[i]) == key;
      assert RecordsIt(samples, i, samples[i]);
      ChangesAreRecorded(samples, samples[i]);
      assert samples[i] in changes;
    }
  }

  /** The first sample that carries the id. */
  lemma {:induction false} FirstWithId(samples: seq<AccountStateRecord>, i: nat) returns (first: nat)
    requires i < |samples|
    ensures first <= i && samples[first].accountId == samples[i].accountId
    ensures forall j :: 0 <= j < first ==> samples[j].accountId != samples[i].accountId
  {
    first := i;
    if exists j :: 0 <= j < i && samples[j].accountId == samples[i].accountId {
      var j :| 0 <= j < i && samples[j].accountId == samples[i].accountId;
      first := FirstWithId(samples, j);
    }
  }

  /** Every sampled account that has an id is listed. */
  lemma {:induction false} AccountsWithIdAreListed(samples: seq<AccountStateRecord>, i: nat)
    requires Clean(samples) && i < |samples| && samples[i].accountId.Some? && samples[i].accountId.value != ""
    ensures samples[i].accountId.value in RosterUpTo(Changes(samples), |Changes(samples)|)
  {
    var first := FirstWithId(samples, i);
    if first > 0 && DiscreteKey(samples[first]) == DiscreteKey(samples[first - 1]) {
      SameKeySameAccount(samples[first], samples[first - 1]);
    }
    assert Recorded(samples, first) && RosterKey(samples[first]) == samples[i].accountId.value;
    ListedIffRecorded(samples, samples[i].accountId.value);
  }

  /** The roster lists every sampled key if and only if each one that is only an e-mail or a label starts some change of
      state. */
  lemma {:induction false} RosterCompleteIff(samples: seq<AccountStateRecord>)
    requires Clean(samples)
    ensures (forall i :: 0 <= i < |samples| && RosterKey(samples[i]) != "" ==>
               RosterKey(samples[i]) in RosterUpTo(Changes(samples), |Changes(samples)|))
       <==> forall i :: 0 <= i < |samples| && samples[i].accountId.None? && RosterKey(samples[i]) != "" ==>
               exists j: nat :: Recorded(samples, j) && RosterKey(samples[j]) == RosterKey(samples[i])
  {
    forall i | 0 <= i < |samples| && RosterKey(samples[i]) != ""
      ensures samples[i].accountId.Some? ==> RosterKey(samples[i]) in RosterUpTo(Changes(samples), |Changes(samples)|)
      ensures RosterKey(samples[i]) in RosterUpTo(Changes(samples), |Changes(samples)|)
         <==> exists j: nat :: Recorded(samples, j) && RosterKey(samples[j]) == RosterKey(samples[i])
    {
      ListedIffRecorded(samples, RosterKey(samples[i]));
      if samples[i].accountId.Some? { AccountsWithIdAreListed(samples, i); }
    }
  }

  function Sampled(ts: int, id: Option<string>, email: string): AccountStateRecord {
    AccountStateRecord(ts, id, Some(email), "m", "p", "r", 5, "s")
  }

  /** Two accounts known by e-mail only: the second one never reaches the timeline. */
  lemma SecondEmailUnlisted()
    ensures var samples := [Sampled(0, None, "x"), Sampled(1, None, "y")];
            Changes(samples) == [samples[0]] && "x" in RosterUpTo(Changes(samples), 1)
            && "y" !in RosterUpTo(Changes(samples), 1) && "y" in RosterUpTo(samples, 2)
  {
    var samples := [Sampled(0, None, "x"), Sampled(1, None, "y")];
    assert samples[..1] == [samples[0]] && [samples[0]][..0] == [];
    assert Changes([samples[0]]) == [samples[0]];
    assert DiscreteKey(samples[0]) == DiscreteKey(samples[1]);
    assert RosterUpTo([samples[0]], 0) == map[] && RosterUpTo(samples, 0) == map[];
  }

  /** An account named like the symbol for none is not told from no account at all. */
  lemma SymbolTakenForNone()
    ensures var samples := [Sampled(0, None, "x"), Sampled(1, Some(NO_ACCOUNT), "y")];
            && DiscreteKey(samples[0]) == DiscreteKey(samples[1])
            && AccountAt(samples, 1) == Some(NO_ACCOUNT) && AccountAt(Changes(samples), 1) == None
  {
    var samples := [Sampled(0, None, "x"), Sampled(1, Some(NO_ACCOUNT), "y")];
    assert samples[..1] == [samples[0]] && [samples[0]][..0] == [];
    assert Changes([samples[0]]) == [samples[0]];
  }

  /** A change of e-mail alone, or of the lifetime's source alone, is no change of state. */
  lemma EmailAloneIsNoChange()
    ensures var r := Sampled(0, Some("A"), "x");
            DiscreteKey(r.(email := Some("y"))) == DiscreteKey(r) && DiscreteKey(r.(ttlSource := "t")) == DiscreteKey(r)
  {}
}
