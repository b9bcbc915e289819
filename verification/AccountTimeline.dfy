/** The change-compressed account-state timeline: its buffered writer and its reader by time. */
module AccountTimeline {
  import opened Wrappers
  import Decimal

  datatype AccountStateRecord = AccountStateRecord(
    ts: int, accountId: Option<string>, email: Option<string>, mode: string, plan: string,
    authRegime: string, ttlMinutes: nat, ttlSource: string)

  const SEPARATOR := '\U{1}'
  const NO_ACCOUNT := "\U{2205}"
  const FLUSH_MAX_RECORDS := 32
  const FLUSH_MAX_BYTES := 16 * 1024

  /** What the user's configuration says of the account; absent and empty fields are the same. */
  datatype Identity = Identity(accountUuid: Option<string>, email: Option<string>, displayName: Option<string>)

  datatype AccountInfo = AccountInfo(accountUuid: Option<string>, email: Option<string>, caption: string)

  /** Email, else display name, else the start of the id. */
  function LabelOf(identity: Identity): string {
    if identity.email.Some? then identity.email.value
    else if identity.displayName.Some? then identity.displayName.value
    else if identity.accountUuid.Some? then
      (var id := identity.accountUuid.value; if |id| <= 8 then id else id[..8])
    else "unknown"
  }

  /** The account of the moment; with no readable identity it has no id, no email, and the label "unknown". */
  function CurrentAccount(identity: Option<Identity>): AccountInfo {
    match identity
    case None => AccountInfo(None, None, "unknown")
    case Some(known) => AccountInfo(known.accountUuid, known.email, LabelOf(known))
  }

  /** The label stands in for a missing email. */
  function BuildRecord(account: Option<AccountInfo>, now: int, mode: string, plan: string, authRegime: string,
                       ttlMinutes: nat, ttlSource: string): AccountStateRecord
  {
    match account
    case None => AccountStateRecord(now, None, None, mode, plan, authRegime, ttlMinutes, ttlSource)
    case Some(a) =>
      AccountStateRecord(
        now, a.accountUuid, Some(a.email.GetOr(a.caption)), mode, plan, authRegime, ttlMinutes, ttlSource)
  }

  /** A record holds what was observed, field by field; the e-mail may be replaced by the display name, the start of
      the id or "unknown", in this order. */
  lemma RecordHoldsObservation(identity: Option<Identity>, now: int, mode: string, plan: string, authRegime: string,
                               ttlMinutes: nat, ttlSource: string)
    ensures var r := BuildRecord(Some(CurrentAccount(identity)), now, mode, plan, authRegime, ttlMinutes, ttlSource);
            var none := BuildRecord(None, now, mode, plan, authRegime, ttlMinutes, ttlSource);
            && r.ts == now && r.mode == mode && r.plan == plan && r.authRegime == authRegime
            && r.ttlMinutes == ttlMinutes && r.ttlSource == ttlSource
            && none == r.(accountId := None, email := None)
            && r.accountId == (if identity.Some? then identity.value.accountUuid else None)
            && (identity.None? ==> r.email == Some("unknown"))
            && (identity.Some? ==> var id := identity.value;
                  && (id.email.Some? ==> r.email == id.email)
                  && (id.email.None? && id.displayName.Some? ==> r.email == id.displayName)
                  && (id.email.None? && id.displayName.None? && id.accountUuid.None? ==> r.email == Some("unknown"))
                  && (id.email.None? && id.displayName.None? && id.accountUuid.Some? ==>
                        && r.email.value <= id.accountUuid.value
                        && |r.email.value| == if |id.accountUuid.value| < 8 then |id.accountUuid.value| else 8))
  {}

  function KeyFields(r: AccountStateRecord): seq<string> {
    [r.accountId.GetOr(NO_ACCOUNT), r.mode, r.plan, r.authRegime, Decimal.Render(r.ttlMinutes)]
  }

  function Join(fields: seq<string>): string {
    if fields == [] then []
    else if |fields| == 1 then fields[0]
    else fields[0] + [SEPARATOR] + Join(fields[1..])
  }

  /** The change-detection key. Neither ts nor email nor ttlSource takes part. */
  function DiscreteKey(r: AccountStateRecord): string {
    Join(KeyFields(r))
  }

  /** The key is the five fields with the control character 1 between them; "\U{2205}" stands for no account. */
  lemma KeyText(r: AccountStateRecord)
    ensures DiscreteKey(r) == (if r.accountId.Some? then r.accountId.value else "\U{2205}") + "\U{1}" + r.mode + "\U{1}"
                              + r.plan + "\U{1}" + r.authRegime + "\U{1}" + Decimal.Render(r.ttlMinutes)
  {
    var f := KeyFields(r);
    assert Join(f[4..]) == f[4];
    assert Join(f[3..]) == f[3] + "\U{1}" + Join(f[3..][1..]) && f[3..][1..] == f[4..];
    assert Join(f[2..]) == f[2] + "\U{1}" + Join(f[2..][1..]) && f[2..][1..] == f[3..];
    assert Join(f[1..]) == f[1] + "\U{1}" + Join(f[1..][1..]) && f[1..][1..] == f[2..];
  }

  lemma {:induction false} JoinHead(a: string, b: string, restA: string, restB: string)
    requires SEPARATOR !in a && SEPARATOR !in b
    requires a + [SEPARATOR] + restA == b + [SEPARATOR] + restB
    ensures a == b && restA == restB
  {
    var whole := a + [SEPARATOR] + restA;
    assert whole[|a|] == SEPARATOR && whole[|b|] == SEPARATOR;
    assert forall i :: 0 <= i < |a| ==> whole[i] == a[i] && a[i] in a;
    assert forall i :: 0 <= i < |b| ==> whole[i] == b[i] && b[i] in b;
    assert |a| == |b|;
    assert a == whole[..|a|] == b;
    assert restA == whole[|a| + 1..] == restB;
  }

  lemma {:induction false} JoinInjective(a: seq<string>, b: seq<string>)
    requires |a| == |b| && Join(a) == Join(b)
    requires forall i :: 0 <= i < |a| ==> SEPARATOR !in a[i] && SEPARATOR !in b[i]
    ensures a == b
  {
    if |a| > 1 {
      JoinHead(a[0], b[0], Join(a[1..]), Join(b[1..]));
      JoinInjective(a[1..], b[1..]);
    }
  }

  predicate SeparatorFree(r: AccountStateRecord) {
    forall f :: f in KeyFields(r) ==> SEPARATOR !in f
  }

  /** Two records share a key exactly when all five discrete dimensions agree. */
  lemma {:induction false} SameKeyIffSameState(a: AccountStateRecord, b: AccountStateRecord)
    requires SeparatorFree(a) && SeparatorFree(b)
    ensures DiscreteKey(a) == DiscreteKey(b) <==>
            && a.accountId.GetOr(NO_ACCOUNT) == b.accountId.GetOr(NO_ACCOUNT)
            && a.mode == b.mode && a.plan == b.plan && a.authRegime == b.authRegime
            && a.ttlMinutes == b.ttlMinutes
  {
    if DiscreteKey(a) == DiscreteKey(b) {
      var fa, fb := KeyFields(a), KeyFields(b);
      forall i | 0 <= i < |fa| ensures SEPARATOR !in fa[i] && SEPARATOR !in fb[i] {
        assert fa[i] in fa && fb[i] in fb;
      }
      JoinInjective(fa, fb);
      assert fa[0] == fb[0] && fa[1] == fb[1] && fa[2] == fb[2] && fa[3] == fb[3] && fa[4] == fb[4];
      Decimal.RenderInjective(a.ttlMinutes, b.ttlMinutes);
    }
  }

  // ---- What the timeline should contain ----

  function LastKey(records: seq<AccountStateRecord>): Option<string> {
    if records == [] then None else Some(DiscreteKey(records[|records| - 1]))
  }

  /** The sample log with every sample dropped whose key repeats the one before it. */
  function Changes(samples: seq<AccountStateRecord>): seq<AccountStateRecord> {
    if samples == [] then []
    else
      var before, s := Changes(samples[..|samples| - 1]), samples[|samples| - 1];
      if LastKey(before) == Some(DiscreteKey(s)) then before else before + [s]
  }

  function SerializedSize(records: seq<AccountStateRecord>, lineLength: AccountStateRecord -> nat): nat {
    if records == [] then 0
    else SerializedSize(records[..|records| - 1], lineLength) + lineLength(records[|records| - 1]) + 1
  }

  // ---- The writer ----

  /** `file` stands for the lines on disk; `samples` is the log of all observations that the disk and
      this process still answer for. A write either lands completely or fails completely. */
  class AccountStateTimeline {
    const lineLength: AccountStateRecord -> nat
    var file: seq<AccountStateRecord>
    var buffer: seq<AccountStateRecord>
    var bufferedBytes: nat
    var lastKey: Option<string>
    ghost var samples: seq<AccountStateRecord>

    ghost predicate Valid()
      reads this
    {
      && file + buffer == Changes(samples)
      && lastKey == LastKey(file + buffer)
      && bufferedBytes == SerializedSize(buffer, lineLength)
    }

    constructor (disk: seq<AccountStateRecord>, lineLength: AccountStateRecord -> nat,
                 ghost past: seq<AccountStateRecord>)
      requires disk == Changes(past)
      ensures Valid() && file == disk && buffer == [] && samples == past && this.lineLength == lineLength
    {
      this.lineLength := lineLength;
      file, buffer, bufferedBytes := disk, [], 0;
      lastKey := LastKey(disk);
      samples := past;
      new;
      assert file + buffer == disk;
    }

    method Record(state: AccountStateRecord, writeOk: bool) returns (changed: bool)
      requires Valid()
      modifies this
      ensures Valid() && samples == old(samples) + [state]
      ensures changed <==> LastKey(old(samples)) != Some(DiscreteKey(state))
      ensures !changed ==> file == old(file) && buffer == old(buffer)
      ensures changed ==>
        var full := |old(buffer)| + 1 >= 32 || old(bufferedBytes) + lineLength(state) + 1 >= 16_384;
        if full && writeOk then file == old(file) + old(buffer) + [state] && buffer == []
        else file == old(file) && buffer == old(buffer) + [state]
    {
      var key := DiscreteKey(state);
      RecordStep(file, buffer, samples, state, lineLength);
      if lastKey == Some(key) {
        samples := samples + [state];
        return false;
      }
      lastKey := Some(key);
      buffer := buffer + [state];
      bufferedBytes := bufferedBytes + lineLength(state) + 1;
      samples := samples + [state];
      if |buffer| >= FLUSH_MAX_RECORDS || bufferedBytes >= FLUSH_MAX_BYTES {
        Flush(writeOk);
      }
      return true;
    }

    method Flush(writeOk: bool)
      requires Valid()
      modifies this
      ensures Valid() && samples == old(samples)
      ensures file == if writeOk then old(file) + old(buffer) else old(file)
      ensures buffer == if writeOk then [] else old(buffer)
    {
      if buffer == [] {
        assert file + buffer == file;
        return;
      }
      var batch := buffer;
      buffer, bufferedBytes := [], 0;
      if writeOk {
        file := file + batch;
        assert file + buffer == file;
      } else {
        buffer := batch + buffer;
        assert buffer == batch;
        bufferedBytes := bufferedBytes + SerializedSize(batch, lineLength);
      }
    }
  }

  lemma RecordStep(file: seq<AccountStateRecord>, buffer: seq<AccountStateRecord>, samples: seq<AccountStateRecord>,
                   state: AccountStateRecord, lineLength: AccountStateRecord -> nat)
    requires file + buffer == Changes(samples)
    ensures LastKey(file + buffer) == LastKey(samples)
    ensures file + (buffer + [state]) == file + buffer + [state]
    ensures LastKey(file + (buffer + [state])) == Some(DiscreteKey(state))
    ensures Changes(samples + [state])
            == if LastKey(samples) == Some(DiscreteKey(state)) then file + buffer else file + (buffer + [state])
    ensures SerializedSize(buffer + [state], lineLength) == SerializedSize(buffer, lineLength) + lineLength(state) + 1
  {
    ChangesKeepLastKey(samples);
    assert (samples + [state])[..|samples|] == samples;
    assert (buffer + [state])[..|buffer|] == buffer;
    assert file + buffer + [state] == file + (buffer + [state]);
  }

  lemma {:induction false} ChangesKeepLastKey(samples: seq<AccountStateRecord>)
    ensures LastKey(Changes(samples)) == LastKey(samples)
  {
    if samples != [] { ChangesKeepLastKey(samples[..|samples| - 1]); }
  }

  /** No two neighbouring timeline records describe the same state. */
  lemma {:induction false} ChangesAlternate(samples: seq<AccountStateRecord>, i: nat)
    requires i + 1 < |Changes(samples)|
    ensures DiscreteKey(Changes(samples)[i]) != DiscreteKey(Changes(samples)[i + 1])
  {
    var init := samples[..|samples| - 1];
    if i + 1 < |Changes(init)| { ChangesAlternate(init, i); }
  }

  /** A kill loses only what was buffered: the file is the timeline of the log up to the first lost change. */
  lemma {:induction false} KillLosesOnlyTheBuffer(samples: seq<AccountStateRecord>, file: seq<AccountStateRecord>,
                                                  buffer: seq<AccountStateRecord>)
    returns (n: nat)
    requires file + buffer == Changes(samples)
    ensures n <= |samples| && file == Changes(samples[..n])
    ensures if buffer == [] then n == |samples| else n < |samples| && samples[n] == buffer[0]
  {
    if buffer == [] {
      n := |samples|;
      assert samples[..n] == samples && file + buffer == file;
    } else {
      var init := samples[..|samples| - 1];
      if Changes(init) == Changes(samples) {
        n := KillLosesOnlyTheBuffer(init, file, buffer);
      } else {
        assert Changes(init) == Changes(samples)[..|Changes(samples)| - 1] == file + buffer[..|buffer| - 1];
        n := KillLosesOnlyTheBuffer(init, file, buffer[..|buffer| - 1]);
      }
      assert init[..n] == samples[..n];
    }
  }

  // ---- Whole runs ----

  datatype Event =
    | Sample(state: AccountStateRecord, writeOk: bool)
    | Tick(writeOk: bool)
    | Restart(writeOk: bool)

  function SamplesOf(events: seq<Event>): seq<AccountStateRecord> {
    if events == [] then []
    else
      var e := events[|events| - 1];
      SamplesOf(events[..|events| - 1]) + if e.Sample? then [e.state] else []
  }

  /** Runs a server over samples, timer ticks and restarts, any of whose writes may fail. */
  method Serve(events: seq<Event>, lineLength: AccountStateRecord -> nat) returns (t: AccountStateTimeline)
    ensures fresh(t) && t.Valid()
    ensures (forall i :: 0 <= i < |events| ==> events[i] != Restart(false)) ==> t.samples == SamplesOf(events)
  {
    t := new AccountStateTimeline([], lineLength, []);
    for i := 0 to |events|
      invariant fresh(t) && t.Valid()
      invariant (forall k :: 0 <= k < i ==> events[k] != Restart(false)) ==> t.samples == SamplesOf(events[..i])
    {
      assert events[..i + 1][..i] == events[..i];
      match events[i] {
        case Sample(state, ok) =>
          var _ := t.Record(state, ok);
        case Tick(ok) =>
          t.Flush(ok);
          assert SamplesOf(events[..i]) + [] == SamplesOf(events[..i]);
        case Restart(ok) =>
          t.Flush(ok);
          ghost var n := KillLosesOnlyTheBuffer(t.samples, t.file, t.buffer);
          assert SamplesOf(events[..i]) + [] == SamplesOf(events[..i]);
          assert ok ==> t.samples[..n] == t.samples;
          t := new AccountStateTimeline(t.file, lineLength, t.samples[..n]);
      }
    }
    assert events[..|events|] == events;
  }

  // ---- The reader ----

  ghost predicate SortedByTs(records: seq<AccountStateRecord>) {
    forall i, j :: 0 <= i < j < |records| ==> records[i].ts <= records[j].ts
  }

  /** The last record, in log order, that is not later than `ts`. */
  function LastAtOrBefore(records: seq<AccountStateRecord>, ts: int): Option<AccountStateRecord> {
    if records == [] then None
    else if records[|records| - 1].ts <= ts then Some(records[|records| - 1])
    else LastAtOrBefore(records[..|records| - 1], ts)
  }

  lemma {:induction false} LastAtOrBeforeAt(records: seq<AccountStateRecord>, ts: int, k: int)
    requires -1 <= k < |records|
    requires k >= 0 ==> records[k].ts <= ts
    requires forall i :: k < i < |records| ==> records[i].ts > ts
    ensures LastAtOrBefore(records, ts) == if k < 0 then None else Some(records[k])
  {
    if records != [] && k < |records| - 1 {
      LastAtOrBeforeAt(records[..|records| - 1], ts, k);
    }
  }

  method ResolveStateAt(records: seq<AccountStateRecord>, ts: int) returns (r: Option<AccountStateRecord>)
    ensures r.Some? ==> r.value in records && r.value.ts <= ts
    ensures SortedByTs(records) ==> r == LastAtOrBefore(records, ts)
  {
    var lo, hi, ans := 0, |records| - 1, -1;
    while lo <= hi
      invariant -1 <= ans < lo <= hi + 1 <= |records|
      invariant ans >= 0 ==> records[ans].ts <= ts
      invariant SortedByTs(records) ==>
        ans == lo - 1 && forall i :: hi < i < |records| ==> records[i].ts > ts
    {
      var mid := (lo + hi) / 2;
      if records[mid].ts <= ts {
        ans, lo := mid, mid + 1;
      } else {
        hi := mid - 1;
      }
    }
    if SortedByTs(records) {
      LastAtOrBeforeAt(records, ts, ans);
    }
    r := if ans >= 0 then Some(records[ans]) else None;
  }

  function KeyAt(records: seq<AccountStateRecord>, ts: int): Option<string> {
    var r := LastAtOrBefore(records, ts);
    if r.None? then None else Some(DiscreteKey(r.value))
  }

  lemma {:induction false} ChangesStaySorted(samples: seq<AccountStateRecord>)
    requires SortedByTs(samples)
    ensures SortedByTs(Changes(samples))
    ensures forall r :: r in Changes(samples) ==> r in samples
  {
    if samples != [] {
      var init, s := samples[..|samples| - 1], samples[|samples| - 1];
      ChangesStaySorted(init);
      forall r | r in Changes(init) ensures r in samples && r.ts <= s.ts {
        var k :| 0 <= k < |init| && init[k] == r;
        assert samples[k] == r;
      }
    }
  }

  /** The timeline answers every instant with the state the full sample log had then. */
  lemma {:induction false} TimelineRefinesSampleLog(samples: seq<AccountStateRecord>, ts: int)
    requires SortedByTs(samples)
    ensures KeyAt(Changes(samples), ts) == KeyAt(samples, ts)
  {
    if samples != [] {
      var init, s := samples[..|samples| - 1], samples[|samples| - 1];
      var before := Changes(init);
      TimelineRefinesSampleLog(init, ts);
      if LastKey(before) != Some(DiscreteKey(s)) {
        assert (before + [s])[..|before|] == before;
      } else if s.ts <= ts {
        ChangesStaySorted(init);
        assert before[|before| - 1] in init;
      }
    }
  }

  /** Reading only the file is exact for every instant before the first change still buffered. */
  lemma {:induction false} FileAnswersUpToTheBuffer(samples: seq<AccountStateRecord>, file: seq<AccountStateRecord>,
                                                    buffer: seq<AccountStateRecord>, ts: int)
    requires SortedByTs(samples) && file + buffer == Changes(samples)
    requires buffer == [] || ts < buffer[0].ts
    ensures SortedByTs(file) && KeyAt(file, ts) == KeyAt(samples, ts)
  {
    TimelineRefinesSampleLog(samples, ts);
    ChangesStaySorted(samples);
    assert forall i :: 0 <= i < |file| ==> file[i] == Changes(samples)[i];
    DropLater(file, buffer, ts);
  }

  lemma {:induction false} DropLater(file: seq<AccountStateRecord>, buffer: seq<AccountStateRecord>, ts: int)
    requires SortedByTs(file + buffer) && (buffer == [] || ts < buffer[0].ts)
    ensures LastAtOrBefore(file + buffer, ts) == LastAtOrBefore(file, ts)
  {
    if buffer == [] {
      assert file + buffer == file;
    } else {
      var all := file + buffer;
      assert all[|file|] == buffer[0] && all[|all| - 1].ts > ts;
      assert all[..|all| - 1] == file + buffer[..|buffer| - 1];
      DropLater(file, buffer[..|buffer| - 1], ts);
    }
  }
}
