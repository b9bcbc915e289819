/** Cache thrash seen in the response ring: which session keeps rewriting its prefix, if any. */
module Thrash {
  import opened Wrappers
  import opened BodiesActivity
  import Sums

  datatype Options = Options(minCc: nat, maxReadShare: real, minCount: nat, windowMs: nat)

  /** The session a response belongs to, found along the chain of message ids; None when the chain is broken. */
  type SourceOf = RingEntry -> Option<string>

  function Written(e: RingEntry): int {
    if e.Response? then e.usage.cacheCreate else 0
  }

  function One(e: RingEntry): int { 1 }

  /** A recent response that wrote much and read little of what it could have read. */
  predicate IsMiss(e: RingEntry, opts: Options, now: int) {
    && e.Response? && now - e.t <= opts.windowMs
    && e.usage.cacheCreate > opts.minCc && e.usage.cacheCreate + e.usage.cacheRead > 0
    && e.usage.cacheRead as real / (e.usage.cacheCreate + e.usage.cacheRead) as real < opts.maxReadShare
  }

  function Misses(responses: seq<RingEntry>, opts: Options, now: int): seq<RingEntry> {
    if responses == [] then []
    else
      var e := responses[|responses| - 1];
      Misses(responses[..|responses| - 1], opts, now) + if IsMiss(e, opts, now) then [e] else []
  }

  /** A response that wrote more than `minCc` and read less than its share of what it read and wrote. */
  lemma MissByFields(e: RingEntry, opts: Options, now: int)
    ensures IsMiss(e, opts, now) <==>
              && e.Response? && now - e.t <= opts.windowMs && e.usage.cacheCreate > opts.minCc
              && e.usage.cacheRead as real < opts.maxReadShare * (e.usage.cacheRead + e.usage.cacheCreate) as real
  {
    if e.Response? && e.usage.cacheCreate > 0 {
      var read, all := e.usage.cacheRead as real, (e.usage.cacheCreate + e.usage.cacheRead) as real;
      ShareMeans(read, all, opts.maxReadShare);
    }
  }

  lemma ShareMeans(part: real, whole: real, share: real)
    requires whole > 0.0
    ensures part / whole < share <==> part < share * whole
  {
    var q := part / whole;
    assert part == q * whole;
    if q < share {
      assert (share - q) * whole > 0.0;
    } else {
      assert (q - share) * whole >= 0.0;
    }
  }

  /** Reading more never makes a miss; with any share asked for, a large write that read nothing is one. */
  lemma {:induction false} ReadingMoreIsNoMiss(t: nat, usage: Usage, more: nat, opts: Options, now: int)
    ensures IsMiss(Response(t, usage.(cacheRead := usage.cacheRead + more)), opts, now) ==>
            IsMiss(Response(t, usage), opts, now)
    ensures usage.cacheRead == 0 && opts.maxReadShare > 0.0 && usage.cacheCreate > opts.minCc
            && now - t <= opts.windowMs ==>
              IsMiss(Response(t, usage), opts, now)
  {
    var richer := usage.(cacheRead := usage.cacheRead + more);
    MissByFields(Response(t, usage), opts, now);
    MissByFields(Response(t, richer), opts, now);
    if usage.cacheCreate > 0 {
      LessReadBelowShare(usage.cacheRead as real, usage.cacheCreate as real, more as real, opts.maxReadShare);
    }
    if usage.cacheRead == 0 && opts.maxReadShare > 0.0 && usage.cacheCreate > 0 {
      assert opts.maxReadShare * usage.cacheCreate as real > 0.0;
    }
  }

  lemma LessReadBelowShare(read: real, written: real, more: real, share: real)
    requires read >= 0.0 && written > 0.0 && more >= 0.0
    ensures read + more < share * (read + more + written) ==> read < share * (read + written)
  {
    assert share * (read + more + written) == share * (read + written) + share * more;
    if share >= 1.0 {
      assert (share - 1.0) * (read + written) >= 0.0;
    } else {
      assert (1.0 - share) * more >= 0.0;
    }
  }

  datatype Tally = Tally(count: int, cc: int)

  /** Count and rewritten tokens of one source's misses. */
  function TallyOf(misses: seq<RingEntry>, sourceOf: SourceOf, k: Option<string>): Tally {
    Tally(Sums.Total(Sums.Group(misses, sourceOf, k), One), Sums.Total(Sums.Group(misses, sourceOf, k), Written))
  }

  function Add(a: Tally, b: Tally): Tally {
    Tally(a.count + b.count, a.cc + b.cc)
  }

  lemma {:induction false} SourceSnoc(seen: seq<RingEntry>, e: RingEntry, sourceOf: SourceOf, k: Option<string>)
    ensures Sums.Group(seen + [e], sourceOf, k)
         == if sourceOf(e) == k then Sums.Group(seen, sourceOf, k) + [e] else Sums.Group(seen, sourceOf, k)
  {
    assert (seen + [e])[..|seen|] == seen;
  }

  lemma {:induction false} TallySnoc(seen: seq<RingEntry>, e: RingEntry, sourceOf: SourceOf, k: Option<string>)
    ensures TallyOf(seen + [e], sourceOf, k)
         == if sourceOf(e) == k then Add(TallyOf(seen, sourceOf, k), Tally(1, Written(e)))
            else TallyOf(seen, sourceOf, k)
  {
    SourceSnoc(seen, e, sourceOf, k);
    Sums.TotalAppend(Sums.Group(seen, sourceOf, k), e, One);
    Sums.TotalAppend(Sums.Group(seen, sourceOf, k), e, Written);
  }

  // ---- The tally by source, in insertion order ----

  datatype Group = Group(source: Option<string>, tally: Tally)

  /** Counts one miss under its source, which is appended when it is new. */
  function CountMiss(gs: seq<Group>, key: Option<string>, cc: int): seq<Group> {
    if gs == [] then [Group(key, Tally(1, cc))]
    else if gs[0].source == key then [Group(key, Add(gs[0].tally, Tally(1, cc)))] + gs[1..]
    else [gs[0]] + CountMiss(gs[1..], key, cc)
  }

  function GroupsOf(misses: seq<RingEntry>, sourceOf: SourceOf): seq<Group> {
    if misses == [] then []
    else
      var e := misses[|misses| - 1];
      CountMiss(GroupsOf(misses[..|misses| - 1], sourceOf), sourceOf(e), Written(e))
  }

  method GroupBySource(misses: seq<RingEntry>, sourceOf: SourceOf) returns (gs: seq<Group>)
    ensures gs == GroupsOf(misses, sourceOf)
  {
    gs := [];
    for i := 0 to |misses|
      invariant gs == GroupsOf(misses[..i], sourceOf)
    {
      assert misses[..i + 1][..i] == misses[..i];
      gs := CountMiss(gs, sourceOf(misses[i]), Written(misses[i]));
    }
    assert misses[..|misses|] == misses;
  }

  /** What the list holds for a source; nothing for one it does not list. */
  function TallyFor(gs: seq<Group>, k: Option<string>): Tally {
    if gs == [] then Tally(0, 0) else if gs[0].source == k then gs[0].tally else TallyFor(gs[1..], k)
  }

  predicate Lists(gs: seq<Group>, k: Option<string>) {
    exists i :: 0 <= i < |gs| && gs[i].source == k
  }

  predicate EachOnce(gs: seq<Group>) {
    gs == [] || (!Lists(gs[1..], gs[0].source) && EachOnce(gs[1..]))
  }

  function SumCc(gs: seq<Group>): int {
    if gs == [] then 0 else gs[0].tally.cc + SumCc(gs[1..])
  }

  lemma {:induction false} CountListed(gs: seq<Group>, key: Option<string>, cc: int, k: Option<string>)
    ensures Lists(CountMiss(gs, key, cc), k) <==> Lists(gs, k) || k == key
  {
    if gs == [] {
      assert CountMiss(gs, key, cc)[0].source == key;
    } else {
      var next := CountMiss(gs, key, cc);
      ListsCons(gs, k);
      ListsCons(next, k);
      if gs[0].source == key {
        assert next[1..] == gs[1..];
      } else {
        assert next[1..] == CountMiss(gs[1..], key, cc);
        CountListed(gs[1..], key, cc, k);
      }
    }
  }

  lemma {:induction false} ListsCons(gs: seq<Group>, k: Option<string>)
    requires gs != []
    ensures Lists(gs, k) <==> gs[0].source == k || Lists(gs[1..], k)
  {
    if Lists(gs[1..], k) {
      var i :| 0 <= i < |gs[1..]| && gs[1..][i].source == k;
      assert gs[i + 1].source == k;
    }
    if Lists(gs, k) && gs[0].source != k {
      var i :| 0 <= i < |gs| && gs[i].source == k;
      assert gs[1..][i - 1].source == k;
    }
  }

  lemma {:induction false} CountKeepsOnce(gs: seq<Group>, key: Option<string>, cc: int)
    requires EachOnce(gs)
    ensures EachOnce(CountMiss(gs, key, cc))
    ensures SumCc(CountMiss(gs, key, cc)) == SumCc(gs) + cc
  {
    var next := CountMiss(gs, key, cc);
    if gs == [] {
      assert next[1..] == [];
    } else if gs[0].source == key {
      assert next[1..] == gs[1..];
    } else {
      assert next[1..] == CountMiss(gs[1..], key, cc);
      CountKeepsOnce(gs[1..], key, cc);
      CountListed(gs[1..], key, cc, gs[0].source);
    }
  }

  lemma {:induction false} CountAdds(gs: seq<Group>, key: Option<string>, cc: int, k: Option<string>)
    ensures TallyFor(CountMiss(gs, key, cc), k)
         == if k == key then Add(TallyFor(gs, k), Tally(1, cc)) else TallyFor(gs, k)
  {
    var next := CountMiss(gs, key, cc);
    if gs == [] {
      assert next[1..] == [];
    } else if gs[0].source == key {
      assert next[1..] == gs[1..];
    } else {
      assert next[1..] == CountMiss(gs[1..], key, cc);
      CountAdds(gs[1..], key, cc, k);
    }
  }

  /** Each source is listed once, with the tally of all its misses and no others; no token is lost. */
  lemma {:induction false} GroupsAreExact(misses: seq<RingEntry>, sourceOf: SourceOf, k: Option<string>)
    ensures EachOnce(GroupsOf(misses, sourceOf))
    ensures TallyFor(GroupsOf(misses, sourceOf), k) == TallyOf(misses, sourceOf, k)
    ensures SumCc(GroupsOf(misses, sourceOf)) == Sums.Total(misses, Written)
  {
    if misses != [] {
      var init, e := misses[..|misses| - 1], misses[|misses| - 1];
      assert misses == init + [e];
      GroupsAreExact(init, sourceOf, k);
      CountKeepsOnce(GroupsOf(init, sourceOf), sourceOf(e), Written(e));
      CountAdds(GroupsOf(init, sourceOf), sourceOf(e), Written(e), k);
      TallySnoc(init, e, sourceOf, k);
    }
  }

  // ---- The report ----

  datatype TopSource = TopSource(session: string, tally: Tally)

  datatype ThrashReport = ThrashReport(active: bool, count: int, rebilled: int, topSource: Option<TopSource>,
                                       unattributed: Tally, coldStartSessions: nat, coldStartRebilled: int)

  /** What the scan over the groups has found so far. */
  datatype Summary = Summary(top: Option<TopSource>, pool: Tally, coldSessions: nat, coldCc: int, hotCc: int)

  const NOTHING := Summary(None, Tally(0, 0), 0, 0, 0)

  /** One more group: the pool of unknown origin, or a session that may be the top one and may be cold. */
  function Scan(s: Summary, g: Group, minCount: nat): Summary {
    if g.source.None? then s.(pool := g.tally)
    else
      var top :=
        if s.top.None? || g.tally.count > s.top.value.tally.count then Some(TopSource(g.source.value, g.tally))
        else s.top;
      if g.tally.count < minCount then
        s.(top := top, coldSessions := s.coldSessions + 1, coldCc := s.coldCc + g.tally.cc)
      else s.(top := top, hotCc := s.hotCc + g.tally.cc)
  }

  function ScanAll(s: Summary, gs: seq<Group>, minCount: nat): Summary
    decreases |gs|
  {
    if gs == [] then s else ScanAll(Scan(s, gs[0], minCount), gs[1..], minCount)
  }

  method Summarize(gs: seq<Group>, minCount: nat)
    returns (top: Option<TopSource>, unattributed: Tally, coldSessions: nat, coldCc: int)
    ensures var s := ScanAll(NOTHING, gs, minCount);
            top == s.top && unattributed == s.pool && coldSessions == s.coldSessions && coldCc == s.coldCc
  {
    top, unattributed, coldSessions, coldCc := None, Tally(0, 0), 0, 0;
    ghost var hotCc := 0;
    for i := 0 to |gs|
      invariant ScanAll(NOTHING, gs, minCount)
             == ScanAll(Summary(top, unattributed, coldSessions, coldCc, hotCc), gs[i..], minCount)
    {
      assert gs[i..][1..] == gs[i + 1..];
      var g := gs[i].tally;
      if gs[i].source.None? {
        unattributed := g;
        continue;
      }
      if top.None? || g.count > top.value.tally.count {
        top := Some(TopSource(gs[i].source.value, g));
      }
      if g.count < minCount {
        coldSessions := coldSessions + 1;
        coldCc := coldCc + g.cc;
      } else {
        hotCc := hotCc + g.cc;
      }
    }
  }

  /** The top is at least every listed session and is one of them, or the one found before. */
  lemma {:induction false} TopIsLargest(s: Summary, gs: seq<Group>, minCount: nat, k: Option<string>)
    requires EachOnce(gs)
    ensures var top := ScanAll(s, gs, minCount).top;
            && (s.top.Some? ==> top.Some? && s.top.value.tally.count <= top.value.tally.count)
            && (k.Some? && Lists(gs, k) ==> top.Some? && TallyFor(gs, k).count <= top.value.tally.count)
            && (top.Some? ==> top == s.top || (Lists(gs, Some(top.value.session))
                                               && TallyFor(gs, Some(top.value.session)) == top.value.tally))
    decreases |gs|
  {
    if gs != [] {
      var next := Scan(s, gs[0], minCount);
      TopIsLargest(next, gs[1..], minCount, k);
      ListsCons(gs, k);
      var top := ScanAll(s, gs, minCount).top;
      if top.Some? { ListsCons(gs, Some(top.value.session)); }
    }
  }

  /** Every listed token ends up in the pool, with the cold sessions or with the others. */
  lemma {:induction false} ScanKeepsTokens(s: Summary, gs: seq<Group>, minCount: nat)
    requires EachOnce(gs) && (Lists(gs, None) ==> s.pool == Tally(0, 0))
    ensures var r := ScanAll(s, gs, minCount);
            && r.pool.cc + r.coldCc + r.hotCc == s.pool.cc + s.coldCc + s.hotCc + SumCc(gs)
            && r.pool == if Lists(gs, None) then TallyFor(gs, None) else s.pool
    decreases |gs|
  {
    if gs != [] {
      ListsCons(gs, None);
      ScanKeepsTokens(Scan(s, gs[0], minCount), gs[1..], minCount);
    }
  }

  /** Without a session at `minCount` misses nothing counts as thrash. */
  lemma {:induction false} NothingHot(s: Summary, gs: seq<Group>, minCount: nat)
    requires ScanAll(s, gs, minCount).top.Some? ==> ScanAll(s, gs, minCount).top.value.tally.count < minCount
    requires EachOnce(gs)
    ensures ScanAll(s, gs, minCount).hotCc == s.hotCc
    decreases |gs|
  {
    if gs != [] {
      var next := Scan(s, gs[0], minCount);
      NothingHot(next, gs[1..], minCount);
      TopIsLargest(next, gs[1..], minCount, None);
    }
  }

  lemma {:induction false} UnlistedIsZero(gs: seq<Group>, k: Option<string>)
    requires !Lists(gs, k)
    ensures TallyFor(gs, k) == Tally(0, 0)
  {
    if gs != [] {
      ListsCons(gs, k);
      UnlistedIsZero(gs[1..], k);
    }
  }

  // ---- Cold starts and thrashing sessions ----

  /** A listed session on one side of `minCount`. */
  predicate OnSide(g: Group, minCount: nat, cold: bool) {
    g.source.Some? && (g.tally.count < minCount) == cold
  }

  function Sources(gs: seq<Group>, minCount: nat, cold: bool): set<Option<string>> {
    if gs == [] then {}
    else Sources(gs[1..], minCount, cold) + if OnSide(gs[0], minCount, cold) then {gs[0].source} else {}
  }

  /** What the groups of the given sources rewrote. */
  function CcOf(gs: seq<Group>, sources: set<Option<string>>): int {
    if gs == [] then 0 else (if gs[0].source in sources then gs[0].tally.cc else 0) + CcOf(gs[1..], sources)
  }

  /** What the misses of the given sources rewrote. */
  function WrittenBy(misses: seq<RingEntry>, sourceOf: SourceOf, sources: set<Option<string>>): int {
    if misses == [] then 0
    else
      var e := misses[|misses| - 1];
      WrittenBy(misses[..|misses| - 1], sourceOf, sources) + if sourceOf(e) in sources then Written(e) else 0
  }

  lemma {:induction false} SourcesAre(gs: seq<Group>, minCount: nat, cold: bool, k: Option<string>)
    requires EachOnce(gs)
    ensures k in Sources(gs, minCount, cold) <==> k.Some? && Lists(gs, k) && (TallyFor(gs, k).count < minCount) == cold
  {
    if gs != [] {
      ListsCons(gs, k);
      SourcesAre(gs[1..], minCount, cold, k);
    }
  }

  lemma {:induction false} CountMissCc(gs: seq<Group>, key: Option<string>, cc: int, sources: set<Option<string>>)
    ensures CcOf(CountMiss(gs, key, cc), sources) == CcOf(gs, sources) + if key in sources then cc else 0
  {
    var next := CountMiss(gs, key, cc);
    if gs == [] {
      assert next[1..] == [];
    } else if gs[0].source == key {
      assert next[1..] == gs[1..];
    } else {
      assert next[1..] == CountMiss(gs[1..], key, cc);
      CountMissCc(gs[1..], key, cc, sources);
    }
  }

  lemma {:induction false} GroupsWritten(misses: seq<RingEntry>, sourceOf: SourceOf, sources: set<Option<string>>)
    ensures CcOf(GroupsOf(misses, sourceOf), sources) == WrittenBy(misses, sourceOf, sources)
  {
    if misses != [] {
      var init, e := misses[..|misses| - 1], misses[|misses| - 1];
      GroupsWritten(init, sourceOf, sources);
      CountMissCc(GroupsOf(init, sourceOf), sourceOf(e), Written(e), sources);
    }
  }

  lemma {:induction false} CcOfUnlisted(gs: seq<Group>, sources: set<Option<string>>, k: Option<string>)
    requires !Lists(gs, k)
    ensures CcOf(gs, sources + {k}) == CcOf(gs, sources)
  {
    if gs != [] {
      ListsCons(gs, k);
      CcOfUnlisted(gs[1..], sources, k);
    }
  }

  /** The scan counts the cold sessions and adds up what each side rewrote. */
  lemma {:induction false} ScanCountsSides(s: Summary, gs: seq<Group>, minCount: nat)
    requires EachOnce(gs)
    ensures var r, cold, hot := ScanAll(s, gs, minCount), Sources(gs, minCount, true), Sources(gs, minCount, false);
            && r.coldSessions == s.coldSessions + |cold|
            && r.coldCc == s.coldCc + CcOf(gs, cold) && r.hotCc == s.hotCc + CcOf(gs, hot)
    decreases |gs|
  {
    if gs != [] {
      var rest, k := gs[1..], gs[0].source;
      ScanCountsSides(Scan(s, gs[0], minCount), rest, minCount);
      SourcesAre(rest, minCount, true, k);
      SourcesAre(rest, minCount, false, k);
      CcOfUnlisted(rest, Sources(rest, minCount, true), k);
      CcOfUnlisted(rest, Sources(rest, minCount, false), k);
      assert forall cold :: Sources(rest, minCount, cold) + {} == Sources(rest, minCount, cold);
    }
  }

  /** The sessions on one side: fewer misses than `minCount` but some, or at least as many. */
  ghost predicate Side(sources: set<Option<string>>, misses: seq<RingEntry>, sourceOf: SourceOf, minCount: nat,
                       cold: bool) {
    forall k :: k in sources <==>
      k.Some?
      && if cold then 0 < TallyOf(misses, sourceOf, k).count < minCount
         else TallyOf(misses, sourceOf, k).count >= minCount
  }

  lemma {:induction false} ListedHasMiss(misses: seq<RingEntry>, sourceOf: SourceOf, k: Option<string>)
    ensures Lists(GroupsOf(misses, sourceOf), k) <==> TallyOf(misses, sourceOf, k).count > 0
  {
    GroupsAreExact(misses, sourceOf, k);
    if misses != [] {
      var init, e := misses[..|misses| - 1], misses[|misses| - 1];
      assert misses == init + [e];
      ListedHasMiss(init, sourceOf, k);
      CountListed(GroupsOf(init, sourceOf), sourceOf(e), Written(e), k);
      TallySnoc(init, e, sourceOf, k);
      OnesNotNegative(Sums.Group(init, sourceOf, k));
    }
  }

  lemma {:induction false} SidesAreExact(misses: seq<RingEntry>, sourceOf: SourceOf, minCount: nat)
    requires minCount > 0
    ensures Side(Sources(GroupsOf(misses, sourceOf), minCount, true), misses, sourceOf, minCount, true)
    ensures Side(Sources(GroupsOf(misses, sourceOf), minCount, false), misses, sourceOf, minCount, false)
  {
    var gs := GroupsOf(misses, sourceOf);
    forall k: Option<string>
      ensures k in Sources(gs, minCount, true) <==> k.Some? && 0 < TallyOf(misses, sourceOf, k).count < minCount
      ensures k in Sources(gs, minCount, false) <==> k.Some? && TallyOf(misses, sourceOf, k).count >= minCount
    {
      GroupsAreExact(misses, sourceOf, k);
      ListedHasMiss(misses, sourceOf, k);
      SourcesAre(gs, minCount, true, k);
      SourcesAre(gs, minCount, false, k);
    }
  }

  /** Cold starts, thrashing sessions and the unattributed pool together rewrote what all misses did. */
  ghost predicate SplitBySide(r: ThrashReport, misses: seq<RingEntry>, sourceOf: SourceOf, minCount: nat) {
    exists cold: set<Option<string>>, hot: set<Option<string>> ::
      && Side(cold, misses, sourceOf, minCount, true) && Side(hot, misses, sourceOf, minCount, false)
      && r.coldStartSessions == |cold| && r.coldStartRebilled == WrittenBy(misses, sourceOf, cold)
      && r.rebilled == r.unattributed.cc + r.coldStartRebilled + WrittenBy(misses, sourceOf, hot)
  }

  /** What a reader may conclude from the report. */
  ghost predicate Faithful(r: ThrashReport, misses: seq<RingEntry>, sourceOf: SourceOf, minCount: nat) {
    // somebody is accused exactly when one session alone missed often enough
    && (r.active <==> exists s: string :: TallyOf(misses, sourceOf, Some(s)).count >= minCount)
    // and then it is a session with the most misses
    && (r.active ==> r.topSource.Some?)
    && (r.topSource.Some? ==>
          && r.topSource.value.tally == TallyOf(misses, sourceOf, Some(r.topSource.value.session))
          && forall s: string :: TallyOf(misses, sourceOf, Some(s)).count <= r.topSource.value.tally.count)
    // misses of unknown origin are pooled and accuse nobody
    && r.unattributed == TallyOf(misses, sourceOf, None)
    // every rewritten token is accounted for
    && r.count == |misses| && r.rebilled == Sums.Total(misses, Written)
    && SplitBySide(r, misses, sourceOf, minCount)
    && (!r.active ==> r.rebilled == r.unattributed.cc + r.coldStartRebilled)
  }

  lemma {:induction false} TopIsFaithful(misses: seq<RingEntry>, sourceOf: SourceOf, minCount: nat, s: string)
    ensures var top := ScanAll(NOTHING, GroupsOf(misses, sourceOf), minCount).top;
            && (top.Some? ==> top.value.tally == TallyOf(misses, sourceOf, Some(top.value.session)))
            && (top.Some? ==> TallyOf(misses, sourceOf, Some(s)).count <= top.value.tally.count)
            && (top.None? ==> TallyOf(misses, sourceOf, Some(s)).count == 0)
  {
    var gs := GroupsOf(misses, sourceOf);
    GroupsAreExact(misses, sourceOf, Some(s));
    TopIsLargest(NOTHING, gs, minCount, Some(s));
    if !Lists(gs, Some(s)) { UnlistedIsZero(gs, Some(s)); }
    var top := ScanAll(NOTHING, gs, minCount).top;
    if top.Some? {
      GroupsAreExact(misses, sourceOf, Some(top.value.session));
      CountNotNegative(misses, sourceOf, top.value.session);
    }
  }

  lemma {:induction false} CountNotNegative(misses: seq<RingEntry>, sourceOf: SourceOf, s: string)
    ensures TallyOf(misses, sourceOf, Some(s)).count >= 0
  {
    OnesNotNegative(Sums.Group(misses, sourceOf, Some(s)));
  }

  lemma {:induction false} OnesNotNegative(s: seq<RingEntry>)
    ensures Sums.Total(s, One) >= 0
  {
    if s != [] { OnesNotNegative(s[..|s| - 1]); }
  }

  lemma {:induction false} TokensAccountedFor(misses: seq<RingEntry>, sourceOf: SourceOf, minCount: nat)
    ensures var s := ScanAll(NOTHING, GroupsOf(misses, sourceOf), minCount);
            && s.pool == TallyOf(misses, sourceOf, None)
            && s.pool.cc + s.coldCc + s.hotCc == Sums.Total(misses, Written)
            && ((s.top.Some? ==> s.top.value.tally.count < minCount) ==> s.hotCc == 0)
  {
    var gs := GroupsOf(misses, sourceOf);
    GroupsAreExact(misses, sourceOf, None);
    ScanKeepsTokens(NOTHING, gs, minCount);
    if !Lists(gs, None) { UnlistedIsZero(gs, None); }
    var s := ScanAll(NOTHING, gs, minCount);
    if s.top.Some? ==> s.top.value.tally.count < minCount { NothingHot(NOTHING, gs, minCount); }
  }

  lemma {:induction false} ReportIsFaithful(r: ThrashReport, misses: seq<RingEntry>, sourceOf: SourceOf, minCount: nat)
    requires minCount > 0 && r.count == |misses| && r.rebilled == Sums.Total(misses, Written)
    requires var s := ScanAll(NOTHING, GroupsOf(misses, sourceOf), minCount);
             r.topSource == s.top && r.unattributed == s.pool && r.coldStartRebilled == s.coldCc
               && r.coldStartSessions == s.coldSessions
    requires r.active <==> r.topSource.Some? && r.topSource.value.tally.count >= minCount
    ensures Faithful(r, misses, sourceOf, minCount)
  {
    TokensAccountedFor(misses, sourceOf, minCount);
    forall s: string
      ensures r.topSource.Some? ==> TallyOf(misses, sourceOf, Some(s)).count <= r.topSource.value.tally.count
      ensures r.topSource.None? ==> TallyOf(misses, sourceOf, Some(s)).count == 0
      ensures r.topSource.Some? ==>
              r.topSource.value.tally == TallyOf(misses, sourceOf, Some(r.topSource.value.session))
    {
      TopIsFaithful(misses, sourceOf, minCount, s);
    }
    TopIsFaithful(misses, sourceOf, minCount, "");
    ReportSplits(r, misses, sourceOf, minCount);
  }

  lemma {:induction false} ReportSplits(r: ThrashReport, misses: seq<RingEntry>, sourceOf: SourceOf, minCount: nat)
    requires minCount > 0 && r.rebilled == Sums.Total(misses, Written)
    requires var s := ScanAll(NOTHING, GroupsOf(misses, sourceOf), minCount);
             r.unattributed == s.pool && r.coldStartRebilled == s.coldCc && r.coldStartSessions == s.coldSessions
    ensures SplitBySide(r, misses, sourceOf, minCount)
  {
    var gs := GroupsOf(misses, sourceOf);
    var cold, hot := Sources(gs, minCount, true), Sources(gs, minCount, false);
    GroupsAreExact(misses, sourceOf, None);
    ScanCountsSides(NOTHING, gs, minCount);
    GroupsWritten(misses, sourceOf, cold);
    GroupsWritten(misses, sourceOf, hot);
    SidesAreExact(misses, sourceOf, minCount);
    TokensAccountedFor(misses, sourceOf, minCount);
  }

  /** The thrash part of a report over the response ring; at least two misses make a thrashing session. */
  method ReportThrash(responses: seq<RingEntry>, sourceOf: SourceOf, opts: Options, now: int) returns (r: ThrashReport)
    requires opts.minCount >= 2
    ensures Faithful(r, Misses(responses, opts, now), sourceOf, opts.minCount)
  {
    var misses := Misses(responses, opts, now);
    var rebilled := 0;
    for i := 0 to |misses|
      invariant rebilled == Sums.Total(misses[..i], Written)
    {
      Sums.TotalAppend(misses[..i], misses[i], Written);
      assert misses[..i + 1] == misses[..i] + [misses[i]];
      rebilled := rebilled + Written(misses[i]);
    }
    assert misses[..|misses|] == misses;
    var gs := GroupBySource(misses, sourceOf);
    var top, unattributed, coldSessions, coldCc := Summarize(gs, opts.minCount);
    var active := top.Some? && top.value.tally.count >= opts.minCount;
    r := ThrashReport(active, |misses|, rebilled, top, unattributed, coldSessions, coldCc);
    ReportIsFaithful(r, misses, sourceOf, opts.minCount);
  }

  // ---- The report over the files ----

  /** A parsed response file of at most 5 MB, not older than a quarter of an hour and inside the window, that wrote more
      than `minCc` and read less than its share. */
  predicate Rewrites(f: BodyFile, opts: Options, now: int) {
    && f.kind == ResponseFile && f.size <= 5_242_880 && f.usage.Some?
    && now - f.mtimeMs <= 900_000 && now - f.mtimeMs <= opts.windowMs
    && f.usage.value.cacheCreate > opts.minCc
    && f.usage.value.cacheRead as real
       < opts.maxReadShare * (f.usage.value.cacheRead + f.usage.value.cacheCreate) as real
  }

  function ResponseOf(f: BodyFile): RingEntry
    requires f.usage.Some?
  {
    Response(f.mtimeMs, f.usage.value)
  }

  /** The responses of all such files, in order. */
  function Rewriting(names: seq<Name>, world: World, opts: Options, now: int): seq<RingEntry> {
    if names == [] then []
    else
      var f := world(names[|names| - 1]);
      Rewriting(names[..|names| - 1], world, opts, now) + if Rewrites(f, opts, now) then [ResponseOf(f)] else []
  }

  lemma {:induction false} MissesAreRewriting(names: seq<Name>, world: World, opts: Options, now: int)
    ensures Misses(FullScan(names, ResponseRing, now - RESPONSE_RING_WINDOW_MS, world), opts, now)
         == Rewriting(names, world, opts, now)
  {
    if names != [] {
      var init, f := names[..|names| - 1], world(names[|names| - 1]);
      var ring := FullScan(init, ResponseRing, now - RESPONSE_RING_WINDOW_MS, world);
      MissesAreRewriting(init, world, opts, now);
      if f.usage.Some? {
        MissByFields(ResponseOf(f), opts, now);
        assert (ring + [ResponseOf(f)])[..|ring|] == ring;
      }
      assert ring + [] == ring;
    }
  }

  /** One more miss counts for its own source and for the whole, by what it wrote. */
  lemma {:induction false} OneMoreMiss(misses: seq<RingEntry>, t: nat, usage: Usage, sourceOf: SourceOf,
                                       k: Option<string>)
    ensures var e, mine := Response(t, usage), TallyOf(misses, sourceOf, k);
            TallyOf(misses + [e], sourceOf, k)
            == if sourceOf(e) == k then Tally(mine.count + 1, mine.cc + usage.cacheCreate) else mine
    ensures Sums.Total(misses + [Response(t, usage)], Written) == Sums.Total(misses, Written) + usage.cacheCreate
    ensures TallyOf([], sourceOf, k) == Tally(0, 0) && Sums.Total([], Written) == 0
  {
    TallySnoc(misses, Response(t, usage), sourceOf, k);
    Sums.TotalAppend(misses, Response(t, usage), Written);
  }

  /** The known files that are such responses of one source. */
  function FilesOf(names: seq<Name>, world: World, sourceOf: SourceOf, k: Option<string>, opts: Options, now: int)
    : set<Name>
  {
    set n | n in names && Rewrites(world(n), opts, now) && sourceOf(ResponseOf(world(n))) == k
  }

  lemma FilesGrow(names: seq<Name>, n: Name, world: World, sourceOf: SourceOf, k: Option<string>, opts: Options,
                  now: int)
    requires n !in names
    ensures var mine := Rewrites(world(n), opts, now) && sourceOf(ResponseOf(world(n))) == k;
            && FilesOf(names + [n], world, sourceOf, k, opts, now)
               == FilesOf(names, world, sourceOf, k, opts, now) + (if mine then {n} else {})
            && n !in FilesOf(names, world, sourceOf, k, opts, now)
  {}

  lemma RewritingGrows(names: seq<Name>, n: Name, world: World, opts: Options, now: int)
    ensures Rewriting(names + [n], world, opts, now)
         == Rewriting(names, world, opts, now) + if Rewrites(world(n), opts, now) then [ResponseOf(world(n))] else []
  {
    assert (names + [n])[..|names|] == names;
  }

  lemma {:induction false} FilesCounted(names: seq<Name>, world: World, sourceOf: SourceOf, k: Option<string>,
                                        opts: Options, now: int)
    requires Distinct(names)
    ensures TallyOf(Rewriting(names, world, opts, now), sourceOf, k).count
         == |FilesOf(names, world, sourceOf, k, opts, now)|
  {
    if names != [] {
      var init, n := names[..|names| - 1], names[|names| - 1];
      var f, misses := world(n), Rewriting(init, world, opts, now);
      FilesCounted(init, world, sourceOf, k, opts, now);
      assert names == init + [n] && n !in init;
      FilesGrow(init, n, world, sourceOf, k, opts, now);
      RewritingGrows(init, n, world, opts, now);
      if Rewrites(f, opts, now) {
        OneMoreFile(misses, f, FilesOf(init, world, sourceOf, k, opts, now), n, sourceOf, k);
      } else {
        assert misses + [] == misses;
      }
    }
  }

  lemma OneMoreFile(misses: seq<RingEntry>, f: BodyFile, files: set<Name>, n: Name, sourceOf: SourceOf,
                    k: Option<string>)
    requires f.usage.Some? && n !in files && TallyOf(misses, sourceOf, k).count == |files|
    ensures TallyOf(misses + [ResponseOf(f)], sourceOf, k).count
         == |files + if sourceOf(ResponseOf(f)) == k then {n} else {}|
  {
    OneMoreMiss(misses, f.mtimeMs, f.usage.value, sourceOf, k);
    assert files + {} == files;
  }

  /** A report prunes the rings and judges what is left: the misses among all responses ever listed and still in the
      window. */
  method Report(tracker: BodiesActivityTracker, sourceOf: SourceOf, opts: Options, now: int) returns (r: ThrashReport)
    requires tracker.Valid() && now >= tracker.lastNow && opts.minCount >= 2
    modifies tracker`largeRequests, tracker`responses, tracker`lastNow
    ensures tracker.Valid() && tracker.lastNow == now
    ensures Faithful(r, Rewriting(tracker.known, tracker.world, opts, now), sourceOf, opts.minCount)
    ensures r.active <==>
              exists s: string :: |FilesOf(tracker.known, tracker.world, sourceOf, Some(s), opts, now)| >= opts.minCount
    ensures r.topSource.Some? ==>
              r.topSource.value.tally.count
              == |FilesOf(tracker.known, tracker.world, sourceOf, Some(r.topSource.value.session), opts, now)|
    ensures r.unattributed.count == |FilesOf(tracker.known, tracker.world, sourceOf, None, opts, now)|
  {
    tracker.PruneRings(now);
    assert tracker.responses == FullScan(tracker.known, ResponseRing, now - RESPONSE_RING_WINDOW_MS, tracker.world);
    r := ReportThrash(tracker.responses, sourceOf, opts, now);
    MissesAreRewriting(tracker.known, tracker.world, opts, now);
    forall k: Option<string>
      ensures TallyOf(Rewriting(tracker.known, tracker.world, opts, now), sourceOf, k).count
           == |FilesOf(tracker.known, tracker.world, sourceOf, k, opts, now)|
    {
      FilesCounted(tracker.known, tracker.world, sourceOf, k, opts, now);
    }
  }
}
