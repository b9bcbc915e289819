/** Which verdict a turn gets, cause by cause, in terms of what was sent and counted. */
module CacheBreakVerdicts {
  import opened Wrappers
  import opened CacheBreak

  type Minimums = string -> Option<nat>

  /** A later turn of one stream with cache activity: neither of the diagnoses made before any comparison applies. */
  predicate Compared(prev: TurnPrefix, cur: TurnPrefix, timing: BreakTiming, prev2: Option<TurnPrefix>,
                     mins: Minimums) {
    && !NeverCached(cur, timing, mins)
    && !(prev2.Some? && !SameStream(prev, cur) && SameStream(cur, prev2.value))
  }

  predicate NothingCached(timing: BreakTiming) {
    timing.cacheReadTokens == 0 && timing.cacheCreateTokens == 0
  }

  predicate TooSmall(cur: TurnPrefix, mins: Minimums) {
    mins(cur.model).Some? && cur.promptTokensApprox < mins(cur.model).value
  }

  predicate NeverCached(cur: TurnPrefix, timing: BreakTiming, mins: Minimums) {
    NothingCached(timing) && (!cur.hasCacheControl || TooSmall(cur, mins))
  }

  /** A turn that was never cached is called so, whatever came before it, and no other turn is. */
  lemma {:induction false} NeverCachedIff(
    prev: Option<TurnPrefix>, cur: TurnPrefix, timing: BreakTiming, prev2: Option<TurnPrefix>, mins: Minimums)
    ensures var cause := ClassifyCacheBreak(prev, cur, timing, prev2, mins).cause;
            && (cause == CACHING_DISABLED <==> NothingCached(timing) && !cur.hasCacheControl)
            && (cause == BELOW_MIN_CACHEABLE <==> NothingCached(timing) && cur.hasCacheControl && TooSmall(cur, mins))
  {
    if prev.Some? {
      StructuralIsNotEarly(prev.value, cur);
      TimingIsNotEarly(prev.value, cur, timing);
    }
    DiagnosisMeans(cur, timing, mins);
  }

  lemma DiagnosisMeans(cur: TurnPrefix, timing: BreakTiming, mins: Minimums)
    ensures var v := NoCacheActivity(cur, timing, mins);
            && (v.Some? <==> NeverCached(cur, timing, mins))
            && (v.Some? ==> v.value.cause == if cur.hasCacheControl then BELOW_MIN_CACHEABLE else CACHING_DISABLED)
  {}

  lemma TimingIsNotEarly(prev: TurnPrefix, cur: TurnPrefix, timing: BreakTiming)
    ensures !Early(TimingCause(prev, cur, timing))
  {}

  /** The first turn of a session is a cold start, unless it was never cached. */
  lemma FirstTurnIsColdStart(cur: TurnPrefix, timing: BreakTiming, prev2: Option<TurnPrefix>, mins: Minimums)
    requires !NeverCached(cur, timing, mins)
    ensures ClassifyCacheBreak(None, cur, timing, prev2, mins).cause == COLD_START
  {}

  const FOUR_AND_A_HALF_MINUTES := 9 * 30_000

  /** So long after the turn before that the entry may have expired. */
  predicate Expired(timing: BreakTiming) {
    timing.gapMs.Some? && timing.gapMs.value >= FOUR_AND_A_HALF_MINUTES
  }

  /** The last written entry lies outside the window of 20 blocks that is searched. */
  predicate OutOfSight(timing: BreakTiming) {
    && timing.cacheReadTokens == 0 && timing.cacheCreateTokens > 0
    && timing.blocksAddedSinceLastWrite.Some? && timing.blocksAddedSinceLastWrite.value >= 20
  }

  /**
   * What an unchanged turn is put down to: expiry after four and a half minutes; else an overflown lookback when
   * nothing was found that must have been written; else a cold start when nothing was read; else growth when messages
   * were added.
   */
  lemma {:induction false} TimingVerdict(
    prev: TurnPrefix, cur: TurnPrefix, timing: BreakTiming, prev2: Option<TurnPrefix>, mins: Minimums)
    requires Compared(prev, cur, timing, prev2, mins) && StructuralCause(prev, cur).None?
    ensures var v, longer :=
              ClassifyCacheBreak(Some(prev), cur, timing, prev2, mins), |cur.messageBlocks| > |prev.messageBlocks|;
            && (v.cause == TTL_EXPIRY <==> Expired(timing))
            && (v.cause == LOOKBACK_OVERFLOW <==> !Expired(timing) && OutOfSight(timing))
            && (v.cause == COLD_START <==> !Expired(timing) && !OutOfSight(timing) && timing.cacheReadTokens == 0)
            && (v.cause == NORMAL_GROWTH <==> !Expired(timing) && timing.cacheReadTokens > 0 && longer)
            && (v.cause == UNCLASSIFIED <==> !Expired(timing) && timing.cacheReadTokens > 0 && !longer)
            && (v.cause == TTL_EXPIRY ==>
                  (v.culprit == Tag("timing:TTL_EXPIRY:1h") <==> timing.gapMs.value >= 60 * 60 * 1000))
  {}

  /** Of the turns themselves only the number of message blocks matters then. */
  lemma {:induction false} TimingIgnoresContent(
    prev: TurnPrefix, cur: TurnPrefix, prev': TurnPrefix, cur': TurnPrefix, timing: BreakTiming,
    prev2: Option<TurnPrefix>, mins: Minimums)
    requires Compared(prev, cur, timing, prev2, mins) && StructuralCause(prev, cur).None?
    requires Compared(prev', cur', timing, prev2, mins) && StructuralCause(prev', cur').None?
    requires |prev.messageBlocks| == |prev'.messageBlocks| && |cur.messageBlocks| == |cur'.messageBlocks|
    ensures ClassifyCacheBreak(Some(prev), cur, timing, prev2, mins)
         == ClassifyCacheBreak(Some(prev'), cur', timing, prev2, mins)
  {}

  /** The verdicts that are given before any layer is compared. */
  predicate Early(v: Verdict) {
    || v.cause == CACHING_DISABLED || v.cause == BELOW_MIN_CACHEABLE
    || v == Verdict(SUBAGENT_INTERLEAVE, Tag("interleave"))
  }

  lemma ToolsAreNotEarly(prev: seq<PrefixTool>, cur: seq<PrefixTool>)
    ensures DiffTools(prev, cur).Some? ==> !Early(DiffTools(prev, cur).value)
  {}

  lemma BlocksAreNotEarly(prev: seq<PrefixBlock>, cur: seq<PrefixBlock>, layer: Layer)
    ensures DiffBlocks(prev, cur, layer).Some? ==> !Early(DiffBlocks(prev, cur, layer).value)
  {}

  lemma ParametersAreNotEarly(prev: TurnPrefix, cur: TurnPrefix)
    ensures ParameterCause(prev, cur).Some? ==> !Early(ParameterCause(prev, cur).value)
  {}

  lemma {:induction false} CatalogsAreNotEarly(prev: TurnPrefix, cur: TurnPrefix)
    ensures CatalogCause(prev, cur).Some? ==> !Early(CatalogCause(prev, cur).value)
  {
    ToolsAreNotEarly(prev.tools, cur.tools);
  }

  lemma {:induction false} StructuralIsNotEarly(prev: TurnPrefix, cur: TurnPrefix)
    ensures StructuralCause(prev, cur).Some? ==> !Early(StructuralCause(prev, cur).value)
  {
    CatalogsAreNotEarly(prev, cur);
    ParametersAreNotEarly(prev, cur);
    BlocksAreNotEarly(prev.systemBlocks, cur.systemBlocks, System);
    BlocksAreNotEarly(prev.messageBlocks, cur.messageBlocks, Message);
  }

  // ---- Streams, models and catalogs ----

  /** A request that belongs to the stream before the last is told apart from a break, and only such a one is. */
  lemma {:induction false} InterleavedStream(
    prev: TurnPrefix, cur: TurnPrefix, timing: BreakTiming, prev2: TurnPrefix, mins: Minimums)
    requires !NeverCached(cur, timing, mins)
    ensures ClassifyCacheBreak(Some(prev), cur, timing, Some(prev2), mins)
              == Verdict(SUBAGENT_INTERLEAVE, Tag("interleave"))
       <==> && (cur.model == prev2.model && SameTools(cur.tools, prev2.tools))
            && !(prev.model == cur.model && SameTools(prev.tools, cur.tools))
  {
    StructuralIsNotEarly(prev, cur);
  }

  /** The fingerprints of the blocks of one kind, as they come. */
  function FpsOf(blocks: seq<PrefixBlock>, kind: Kind): seq<string> {
    if blocks == [] then []
    else if blocks[|blocks| - 1].kind != kind then FpsOf(blocks[..|blocks| - 1], kind)
    else FpsOf(blocks[..|blocks| - 1], kind) + [blocks[|blocks| - 1].fp]
  }

  lemma {:induction false} FpsOfCons(b: PrefixBlock, blocks: seq<PrefixBlock>, kind: Kind)
    ensures FpsOf([b] + blocks, kind) == (if b.kind == kind then [b.fp] else []) + FpsOf(blocks, kind)
  {
    if blocks == [] {
      assert [b] + blocks == [b];
      assert FpsOf([b][..0], kind) == [];
    } else {
      assert ([b] + blocks)[..|blocks|] == [b] + blocks[..|blocks| - 1];
      FpsOfCons(b, blocks[..|blocks| - 1], kind);
    }
  }

  lemma {:induction false} OfKindHolds(blocks: seq<PrefixBlock>, kind: Kind)
    ensures OfKind(blocks, kind) == multiset(FpsOf(blocks, kind))
  {
    if blocks != [] {
      OfKindHolds(blocks[1..], kind);
      assert blocks == [blocks[0]] + blocks[1..];
      FpsOfCons(blocks[0], blocks[1..], kind);
    }
  }

  /** A catalog that was there before holds other entries now, or another number of one, whatever their order. */
  predicate Reregistered(prev: TurnPrefix, cur: TurnPrefix, kind: Kind) {
    && (exists i :: 0 <= i < |prev.systemBlocks| && prev.systemBlocks[i].kind == kind)
    && multiset(FpsOf(prev.systemBlocks, kind)) != multiset(FpsOf(cur.systemBlocks, kind))
  }

  lemma {:induction false} ChurnedIffReregistered(prev: TurnPrefix, cur: TurnPrefix, kind: Kind)
    ensures CatalogChurned(prev, cur, kind) <==> Reregistered(prev, cur, kind)
  {
    OfKindHolds(prev.systemBlocks, kind);
    OfKindHolds(cur.systemBlocks, kind);
  }

  lemma {:induction false} CatalogsInOrder(prev: TurnPrefix, cur: TurnPrefix)
    ensures var v, tools := CatalogCause(prev, cur), prev.tools != [] && !SameTools(Read(prev.tools), cur.tools);
            var skills, agents := Reregistered(prev, cur, SkillCatalog), Reregistered(prev, cur, AgentCatalog);
            && (v.Some? && v.value.cause == MODEL_SWITCH <==> prev.model != cur.model)
            && (v.Some? && v.value.cause == PLUGINS_RELOADED <==>
                  prev.model == cur.model && ((tools && skills) || (tools && agents) || (skills && agents)))
  {
    ChurnedIffReregistered(prev, cur, SkillCatalog);
    ChurnedIffReregistered(prev, cur, AgentCatalog);
    ToolsQuietIffRead(prev.tools, cur.tools);
    ToolsAreNoReload(prev.tools, cur.tools);
  }

  lemma TimingIsNoReload(prev: TurnPrefix, cur: TurnPrefix, timing: BreakTiming)
    ensures !CatalogOnly(TimingCause(prev, cur, timing).cause)
  {}

  lemma {:induction false} CatalogsDecide(
    prev: TurnPrefix, cur: TurnPrefix, timing: BreakTiming, prev2: Option<TurnPrefix>, mins: Minimums)
    requires Compared(prev, cur, timing, prev2, mins)
    ensures var v, cause := CatalogCause(prev, cur), ClassifyCacheBreak(Some(prev), cur, timing, prev2, mins).cause;
            if v.Some? then cause == v.value.cause else !CatalogOnly(cause)
  {
    BelowCatalogs(prev, cur);
    TimingIsNoReload(prev, cur, timing);
  }

  /** A switched model is named first; then a reload, when at least two of the three catalogs were registered anew. */
  lemma {:induction false} CatalogVerdict(
    prev: TurnPrefix, cur: TurnPrefix, timing: BreakTiming, prev2: Option<TurnPrefix>, mins: Minimums)
    requires Compared(prev, cur, timing, prev2, mins)
    ensures var cause := ClassifyCacheBreak(Some(prev), cur, timing, prev2, mins).cause;
            var tools := prev.tools != [] && !SameTools(Read(prev.tools), cur.tools);
            var skills, agents := Reregistered(prev, cur, SkillCatalog), Reregistered(prev, cur, AgentCatalog);
            && (cause == MODEL_SWITCH <==> prev.model != cur.model)
            && (cause == PLUGINS_RELOADED <==>
                  prev.model == cur.model && ((tools && skills) || (tools && agents) || (skills && agents)))
  {
    CatalogsInOrder(prev, cur);
    CatalogsDecide(prev, cur, timing, prev2, mins);
  }

  predicate CatalogOnly(c: Cause) {
    c == MODEL_SWITCH || c == PLUGINS_RELOADED
  }

  lemma ToolsAreNoReload(prev: seq<PrefixTool>, cur: seq<PrefixTool>)
    ensures DiffTools(prev, cur).Some? ==> !CatalogOnly(DiffTools(prev, cur).value.cause)
  {}

  lemma BlocksAreNoReload(prev: seq<PrefixBlock>, cur: seq<PrefixBlock>, layer: Layer)
    ensures DiffBlocks(prev, cur, layer).Some? ==> !CatalogOnly(DiffBlocks(prev, cur, layer).value.cause)
  {}

  lemma ParametersAreNoReload(prev: TurnPrefix, cur: TurnPrefix)
    ensures ParameterCause(prev, cur).Some? ==> !CatalogOnly(ParameterCause(prev, cur).value.cause)
  {}

  lemma {:induction false} BelowCatalogs(prev: TurnPrefix, cur: TurnPrefix)
    ensures DiffTools(prev.tools, cur.tools).Some? ==> !CatalogOnly(DiffTools(prev.tools, cur.tools).value.cause)
    ensures ParameterCause(prev, cur).Some? ==> !CatalogOnly(ParameterCause(prev, cur).value.cause)
    ensures DiffBlocks(prev.systemBlocks, cur.systemBlocks, System).Some? ==>
              !CatalogOnly(DiffBlocks(prev.systemBlocks, cur.systemBlocks, System).value.cause)
    ensures DiffBlocks(prev.messageBlocks, cur.messageBlocks, Message).Some? ==>
              !CatalogOnly(DiffBlocks(prev.messageBlocks, cur.messageBlocks, Message).value.cause)
  {
    ToolsAreNoReload(prev.tools, cur.tools);
    BlocksAreNoReload(prev.systemBlocks, cur.systemBlocks, System);
    BlocksAreNoReload(prev.messageBlocks, cur.messageBlocks, Message);
    ParametersAreNoReload(prev, cur);
  }

  // ---- Tools ----

  predicate Named(tools: seq<PrefixTool>, name: string) {
    exists i :: 0 <= i < |tools| && tools[i].name == name
  }

  lemma NamedIff(tools: seq<PrefixTool>, name: string)
    ensures name in Names(tools) <==> Named(tools, name)
  {
    if name in Names(tools) {
      var i :| 0 <= i < |Names(tools)| && Names(tools)[i] == name;
      assert tools[i].name == name;
    }
    if Named(tools, name) {
      var i :| 0 <= i < |tools| && tools[i].name == name;
      assert Names(tools)[i] == name;
    }
  }

  /** The name is in one of the catalogs only. */
  predicate Toggled(prev: seq<PrefixTool>, cur: seq<PrefixTool>, name: string) {
    Named(prev, name) != Named(cur, name)
  }

  /** The tools were only added to, and the first of each new name is loaded on demand. */
  ghost predicate OnlyDeferredAdded(prev: seq<PrefixTool>, cur: seq<PrefixTool>) {
    forall name :: Toggled(prev, cur, name) ==> Named(cur, name) && OnDemand(cur, name)
  }

  lemma {:induction false} ChangedNames(prev: seq<PrefixTool>, cur: seq<PrefixTool>, name: string)
    ensures var added, removed := Without(Names(cur), Names(prev)), Without(Names(prev), Names(cur));
            && (name in added <==> Named(cur, name) && !Named(prev, name))
            && (name in removed <==> Named(prev, name) && !Named(cur, name))
            && (name in added + removed <==> Toggled(prev, cur, name))
  {
    NamedIff(prev, name);
    NamedIff(cur, name);
  }

  lemma {:induction false} ToggledLists(prev: seq<PrefixTool>, cur: seq<PrefixTool>)
    requires exists name :: Toggled(prev, cur, name)
    ensures var added, removed := Without(Names(cur), Names(prev)), Without(Names(prev), Names(cur));
            && added + removed != []
            && forall name :: name in added + removed <==> Toggled(prev, cur, name)
  {
    var added, removed := Without(Names(cur), Names(prev)), Without(Names(prev), Names(cur));
    forall name ensures name in added + removed <==> Toggled(prev, cur, name) { ChangedNames(prev, cur, name); }
    var some :| Toggled(prev, cur, some);
    assert some in added + removed;
  }

  /** The first tool of that name is loaded on demand. */
  predicate OnDemand(tools: seq<PrefixTool>, name: string) {
    FindTool(tools, name).Some? && FindTool(tools, name).value.deferred
  }

  lemma {:induction false} OnlyDeferredMeans(prev: seq<PrefixTool>, cur: seq<PrefixTool>)
    requires OnlyDeferredAdded(prev, cur)
    ensures Without(Names(prev), Names(cur)) == []
    ensures forall n :: n in Without(Names(cur), Names(prev)) ==> OnDemand(cur, n)
  {
    forall n
      ensures n in Without(Names(cur), Names(prev)) ==> OnDemand(cur, n)
      ensures n !in Without(Names(prev), Names(cur))
    {
      ChangedNames(prev, cur, n);
    }
    SomeOrNone(Without(Names(prev), Names(cur)));
  }

  lemma {:induction false} OnlyDeferredIf(prev: seq<PrefixTool>, cur: seq<PrefixTool>)
    requires Without(Names(prev), Names(cur)) == []
    requires forall n :: n in Without(Names(cur), Names(prev)) ==> OnDemand(cur, n)
    ensures OnlyDeferredAdded(prev, cur)
  {
    forall n | Toggled(prev, cur, n) ensures Named(cur, n) && OnDemand(cur, n) {
      ChangedNames(prev, cur, n);
      assert n !in Without(Names(prev), Names(cur));
    }
  }

  lemma {:induction false} ToggledKinds(prev: seq<PrefixTool>, cur: seq<PrefixTool>)
    ensures OnlyDeferredAdded(prev, cur) <==>
              && Without(Names(prev), Names(cur)) == []
              && forall n :: n in Without(Names(cur), Names(prev)) ==> OnDemand(cur, n)
  {
    if OnlyDeferredAdded(prev, cur) {
      OnlyDeferredMeans(prev, cur);
    } else if Without(Names(prev), Names(cur)) == []
              && forall n :: n in Without(Names(cur), Names(prev)) ==> OnDemand(cur, n) {
      OnlyDeferredIf(prev, cur);
    }
  }

  predicate AllServers(names: seq<string>) {
    forall n :: n in names ==> "mcp__" <= n
  }

  predicate AllBuiltins(names: seq<string>) {
    forall n :: n in names ==> n in DEFERRED_BUILTINS
  }

  /** How the diff names a change of the set of tools. */
  lemma {:induction false} SetChangeNamed(prev: seq<PrefixTool>, cur: seq<PrefixTool>)
    requires Without(Names(cur), Names(prev)) + Without(Names(prev), Names(cur)) != []
    ensures var added := Without(Names(cur), Names(prev));
            var changed := added + Without(Names(prev), Names(cur));
            && (OnlyDeferredAdded(prev, cur) ==>
                  DiffTools(prev, cur) == Some(Verdict(TOOL_SEARCH_DEFERRED, Tools(added))))
            && (!OnlyDeferredAdded(prev, cur) && AllServers(changed) ==>
                  DiffTools(prev, cur) == Some(Verdict(MCP_TOOLS_CHANGED, Tools(changed))))
            && (!OnlyDeferredAdded(prev, cur) && !AllServers(changed) && AllBuiltins(changed) ==>
                  DiffTools(prev, cur) == Some(Verdict(TOOL_SEARCH_DEFERRED, Tag("harness:deferred-builtins"))))
            && (!OnlyDeferredAdded(prev, cur) && !AllServers(changed) && !AllBuiltins(changed) ==>
                  DiffTools(prev, cur) == Some(Verdict(TOOLSET_CHANGED, Tools(changed))))
  {
    ToggledKinds(prev, cur);
    var added := Without(Names(cur), Names(prev));
    assert (forall n :: n in added ==> OnDemand(cur, n))
       <==> forall n :: n in added ==> FindTool(cur, n).Some? && FindTool(cur, n).value.deferred;
  }

  /**
   * When names come or go, all of them and no others are reported: loading on demand when only deferred tools were
   * added or only the harness's own deferred tools toggled, a server when all belong to servers, else a changed tool
   * set.
   */
  lemma {:induction false} ToggledToolsVerdict(prev: seq<PrefixTool>, cur: seq<PrefixTool>)
    requires exists name :: Toggled(prev, cur, name)
    ensures var v := DiffTools(prev, cur);
            var servers := forall name :: Toggled(prev, cur, name) ==> "mcp__" <= name;
            var builtins := forall name :: Toggled(prev, cur, name) ==> name in DEFERRED_BUILTINS;
            && v.Some?
            && (v.value.cause == TOOL_SEARCH_DEFERRED <==> OnlyDeferredAdded(prev, cur) || (!servers && builtins))
            && (v.value.cause == MCP_TOOLS_CHANGED <==> !OnlyDeferredAdded(prev, cur) && servers)
            && (v.value.cause == TOOLSET_CHANGED <==> !OnlyDeferredAdded(prev, cur) && !servers && !builtins)
            && (v.value.culprit.Tools? ==>
                  forall name :: name in v.value.culprit.names <==> Toggled(prev, cur, name))
            && (!v.value.culprit.Tools? <==> !OnlyDeferredAdded(prev, cur) && !servers && builtins)
  {
    ToggledLists(prev, cur);
    SetChangeNamed(prev, cur);
    var added, removed := Without(Names(cur), Names(prev)), Without(Names(prev), Names(cur));
    if OnlyDeferredAdded(prev, cur) {
      OnlyDeferredMeans(prev, cur);
      assert added + removed == added;
    }
    assert AllServers(added + removed) <==> forall name :: Toggled(prev, cur, name) ==> "mcp__" <= name;
    assert AllBuiltins(added + removed) <==> forall name :: Toggled(prev, cur, name) ==> name in DEFERRED_BUILTINS;
  }

  /** With the same names in another order or number the first tool out of place is reported. */
  lemma {:induction false} ReorderedToolsVerdict(prev: seq<PrefixTool>, cur: seq<PrefixTool>, i: nat)
    requires forall name :: !Toggled(prev, cur, name)
    requires i < |cur| && i <= |prev| && (i < |prev| ==> prev[i].name != cur[i].name)
    requires forall j :: 0 <= j < i ==> prev[j].name == cur[j].name
    ensures DiffTools(prev, cur) == Some(Verdict(TOOLS_REORDERED, Tools([cur[i].name])))
  {
    var prevNames, curNames := Names(prev), Names(cur);
    NothingToggled(prev, cur);
    forall j | 0 <= j < i ensures prevNames[j] == curNames[j] {
      assert prev[j].name == cur[j].name;
    }
    MovedAt(prevNames, curNames, 0, i);
  }

  /** When the new catalog is the start of the old one, and repeats all its names, its first tool is. */
  lemma {:induction false} ShortenedToolsVerdict(prev: seq<PrefixTool>, cur: seq<PrefixTool>)
    requires (forall name :: !Toggled(prev, cur, name)) && 0 < |cur| < |prev|
    requires forall j :: 0 <= j < |cur| ==> prev[j].name == cur[j].name
    ensures DiffTools(prev, cur) == Some(Verdict(TOOLS_REORDERED, Tools([cur[0].name])))
  {
    NothingToggled(prev, cur);
    forall j | 0 <= j < |cur| ensures Names(prev)[j] == Names(cur)[j] {
      assert prev[j].name == cur[j].name;
    }
    NothingMoved(Names(prev), Names(cur), 0);
    assert Names(cur)[..1] == [cur[0].name];
  }

  lemma {:induction false} NothingMoved(prev: seq<string>, cur: seq<string>, from: nat)
    requires from <= |cur| <= |prev| && forall j :: 0 <= j < |cur| ==> prev[j] == cur[j]
    ensures FirstMoved(prev, cur, from) == |cur|
    decreases |cur| - from
  {
    if from < |cur| { NothingMoved(prev, cur, from + 1); }
  }

  lemma SomeOrNone(names: seq<string>)
    ensures names == [] || exists name :: name in names
  {
    if names != [] { assert names[0] in names; }
  }

  lemma {:induction false} NothingToggled(prev: seq<PrefixTool>, cur: seq<PrefixTool>)
    requires forall name :: !Toggled(prev, cur, name)
    ensures Without(Names(cur), Names(prev)) == [] && Without(Names(prev), Names(cur)) == []
  {
    var added, removed := Without(Names(cur), Names(prev)), Without(Names(prev), Names(cur));
    forall name ensures name !in added && name !in removed {
      ChangedNames(prev, cur, name);
      assert !Toggled(prev, cur, name);
    }
    SomeOrNone(added);
    SomeOrNone(removed);
  }

  lemma {:induction false} MovedAt(prev: seq<string>, cur: seq<string>, from: nat, i: nat)
    requires from <= i < |cur| && i <= |prev| && (i < |prev| ==> prev[i] != cur[i])
    requires forall j :: from <= j < i ==> prev[j] == cur[j]
    ensures FirstMoved(prev, cur, from) == i
    decreases i - from
  {
    if from < i {
      assert prev[from] == cur[from];
      MovedAt(prev, cur, from + 1, i);
    }
  }

  /** With the same names in the same order, the first tool that no longer is what its name stood for is reported. */
  lemma {:induction false} RedefinedToolVerdict(prev: seq<PrefixTool>, cur: seq<PrefixTool>, i: nat)
    requires Names(prev) == Names(cur) && i < |cur| && Read(prev)[i].fp != cur[i].fp
    requires forall j :: 0 <= j < i ==> Read(prev)[j].fp == cur[j].fp
    ensures DiffTools(prev, cur) == Some(Verdict(TOOLSET_CHANGED, Tools([cur[i].name])))
  {
    WithoutAll(Names(cur), Names(prev));
    forall j | 0 <= j < |cur|
      ensures FindTool(prev, cur[j].name).Some? && FindTool(prev, cur[j].name).value.fp == Read(prev)[j].fp
    {
      assert Names(prev)[j] == Names(cur)[j];
      var _ := ReadAt(prev, j);
    }
    RedefinedAt(prev, cur, i);
  }

  lemma {:induction false} RedefinedAt(prev: seq<PrefixTool>, cur: seq<PrefixTool>, i: nat)
    requires i < |cur| && forall j :: 0 <= j < |cur| ==> FindTool(prev, cur[j].name).Some?
    requires FindTool(prev, cur[i].name).value.fp != cur[i].fp
    requires forall j :: 0 <= j < i ==> FindTool(prev, cur[j].name).value.fp == cur[j].fp
    ensures FirstRedefined(prev, cur) == Some(cur[i])
  {
    if i > 0 {
      assert forall j :: 0 <= j < |cur[1..]| ==> cur[1..][j] == cur[j + 1];
      RedefinedAt(prev, cur[1..], i - 1);
    }
  }

  // ---- Parameters and regions ----

  /** Both turns give the parameter, and not the same value. */
  predicate Explicitly(a: string, b: string) {
    a != "" && b != "" && a != b
  }

  /** The region differs, and not only in its moving dates. */
  predicate RegionChanged(fpA: string, fpB: string, normA: string, normB: string) {
    fpA != fpB && normA != normB
  }

  predicate ParameterOnly(c: Cause) {
    || c == THINKING_CONFIG_CHANGED || c == EFFORT_PARAM_CHANGED || c == TOOL_CHOICE_CHANGED || c == EFFORT_SWITCH
    || c == WORKING_DIR_CHANGED || c == GIT_STATE_CHANGED
  }

  lemma BlocksAreNoParameter(prev: seq<PrefixBlock>, cur: seq<PrefixBlock>, layer: Layer)
    ensures DiffBlocks(prev, cur, layer).Some? ==> !ParameterOnly(DiffBlocks(prev, cur, layer).value.cause)
  {}

  lemma ParametersInOrder(prev: TurnPrefix, cur: TurnPrefix)
    ensures var v := ParameterCause(prev, cur);
            var thinking, effort :=
              Explicitly(prev.thinking, cur.thinking), Explicitly(prev.effortParam, cur.effortParam);
            var choice, speed := Explicitly(prev.toolChoice, cur.toolChoice), Explicitly(prev.speed, cur.speed);
            var env := RegionChanged(prev.envFp, cur.envFp, prev.envNorm, cur.envNorm);
            var git := RegionChanged(prev.gitFp, cur.gitFp, prev.gitNorm, cur.gitNorm);
            var none := !thinking && !effort && !choice && !speed;
            && (v.Some? ==> ParameterOnly(v.value.cause)) && (v.None? <==> none && !env && !git)
            && (v.Some? && v.value.cause == THINKING_CONFIG_CHANGED <==> thinking)
            && (v.Some? && v.value.cause == EFFORT_PARAM_CHANGED <==> !thinking && effort)
            && (v.Some? && v.value.cause == TOOL_CHOICE_CHANGED <==> !thinking && !effort && choice)
            && (v.Some? && v.value.cause == EFFORT_SWITCH <==> !thinking && !effort && !choice && speed)
            && (v.Some? && v.value.cause == WORKING_DIR_CHANGED <==> none && env)
            && (v.Some? && v.value.cause == GIT_STATE_CHANGED <==> none && !env && git)
  {}

  lemma {:induction false} ParametersDecide(
    prev: TurnPrefix, cur: TurnPrefix, timing: BreakTiming, prev2: Option<TurnPrefix>, mins: Minimums)
    requires Compared(prev, cur, timing, prev2, mins) && CatalogCause(prev, cur).None?
    ensures var v, cause := ParameterCause(prev, cur), ClassifyCacheBreak(Some(prev), cur, timing, prev2, mins).cause;
            if v.Some? then cause == v.value.cause else !ParameterOnly(cause)
  {
    BlocksAreNoParameter(prev.systemBlocks, cur.systemBlocks, System);
    BlocksAreNoParameter(prev.messageBlocks, cur.messageBlocks, Message);
    TimingIsNoParameter(prev, cur, timing);
  }

  lemma TimingIsNoParameter(prev: TurnPrefix, cur: TurnPrefix, timing: BreakTiming)
    ensures !ParameterOnly(TimingCause(prev, cur, timing).cause)
  {}

  /** With model and catalogs kept, the first of these that changed is named: thinking, effort, tool choice and speed
      where both turns give them, the working directory, the state of the repository. */
  lemma {:induction false} ParameterVerdict(
    prev: TurnPrefix, cur: TurnPrefix, timing: BreakTiming, prev2: Option<TurnPrefix>, mins: Minimums)
    requires Compared(prev, cur, timing, prev2, mins) && CatalogCause(prev, cur).None?
    ensures var cause := ClassifyCacheBreak(Some(prev), cur, timing, prev2, mins).cause;
            var thinking, effort :=
              Explicitly(prev.thinking, cur.thinking), Explicitly(prev.effortParam, cur.effortParam);
            var choice, speed := Explicitly(prev.toolChoice, cur.toolChoice), Explicitly(prev.speed, cur.speed);
            var env := RegionChanged(prev.envFp, cur.envFp, prev.envNorm, cur.envNorm);
            var git := RegionChanged(prev.gitFp, cur.gitFp, prev.gitNorm, cur.gitNorm);
            var none := !thinking && !effort && !choice && !speed;
            && (cause == THINKING_CONFIG_CHANGED <==> thinking)
            && (cause == EFFORT_PARAM_CHANGED <==> !thinking && effort)
            && (cause == TOOL_CHOICE_CHANGED <==> !thinking && !effort && choice)
            && (cause == EFFORT_SWITCH <==> !thinking && !effort && !choice && speed)
            && (cause == WORKING_DIR_CHANGED <==> none && env)
            && (cause == GIT_STATE_CHANGED <==> none && !env && git)
  {
    ParametersInOrder(prev, cur);
    ParametersDecide(prev, cur, timing, prev2, mins);
  }

  // ---- Blocks ----

  /** What a changed, added or dropped block of known content is called; `other` is for plain text. */
  predicate NamesContent(cause: Cause, kind: Kind, other: Cause) {
    && (cause == CLAUDE_MD_CHANGED <==> kind.ClaudeMd? || kind.Rule?)
    && (cause == MEMORY_FILE_CHANGED <==> kind.Memory?)
    && (cause == AGENT_METADATA_CHANGED <==> kind.AgentMeta? || kind.AgentCatalog?)
    && (cause == SKILL_CHANGED <==> kind.SkillCatalog?)
    && (cause == HOOK_INJECTION <==> kind.Hook?)
    && (cause == SYSTEM_TIMESTAMP <==> kind.Date?)
    && (cause == INLINE_EXEC_RESULT_CHANGED <==> kind.ExecResult?)
    && (cause == COMPACTION <==> kind.PostCompact?)
    && (cause == ATTACHMENT_CHANGED <==> kind.Attachment?)
    && (cause == other <==> kind.SystemText? || kind.UserText? || kind.History?)
  }

  /** The first user's text of the conversation is another one. */
  predicate OtherConversation(p: PrefixBlock, c: PrefixBlock, layer: Layer) {
    layer.Message? && p.kind.UserText? && c.kind.UserText? && "msg[0]" <= c.label_
  }

  /** None of the verdicts that look beyond the content of the new block applies: compaction, a moved clock, another
      conversation, an exchange of places. */
  predicate Plain(prev: seq<PrefixBlock>, cur: seq<PrefixBlock>, p: PrefixBlock, c: PrefixBlock, layer: Layer) {
    && !p.kind.PostCompact? && !c.kind.PostCompact? && p.norm != c.norm && !OtherConversation(p, c, layer)
    && !(HasFp(prev, c.fp) && HasFp(cur, p.fp))
  }

  lemma {:induction false} FirstDifference(
    prevRaw: seq<PrefixBlock>, curRaw: seq<PrefixBlock>, layer: Layer, i: nat)
    requires var prev, cur := DropMeta(prevRaw), DropMeta(curRaw);
             && i < |prev| && i < |cur| && prev[i].fp != cur[i].fp
             && forall j :: 0 <= j < i ==> prev[j].fp == cur[j].fp
    ensures DiffBlocks(prevRaw, curRaw, layer) == Some(Judge(DropMeta(prevRaw), DropMeta(curRaw), layer, i))
  {
    DivergenceIsFirst(DropMeta(prevRaw), DropMeta(curRaw), 0, i);
  }

  /** The verdicts that do not look at the content, in their order, wherever the lists first differ. */
  lemma {:induction false} StructureBeforeContent(
    prevRaw: seq<PrefixBlock>, curRaw: seq<PrefixBlock>, layer: Layer, i: nat)
    requires var prev, cur := DropMeta(prevRaw), DropMeta(curRaw);
             && i < |prev| && i < |cur| && prev[i].fp != cur[i].fp
             && forall j :: 0 <= j < i ==> prev[j].fp == cur[j].fp
    ensures var prev, cur := DropMeta(prevRaw), DropMeta(curRaw);
            var v, p, c := DiffBlocks(prevRaw, curRaw, layer), prev[i], cur[i];
            var compacted := p.kind.PostCompact? || c.kind.PostCompact?;
            && v.Some?
            && (compacted ==> v.value == Verdict(COMPACTION, Block(c)))
            && (!compacted && p.norm == c.norm ==> v.value == Verdict(SYSTEM_TIMESTAMP, Block(c)))
            && (v.value.cause == SUBAGENT_INTERLEAVE <==>
                  !compacted && p.norm != c.norm && OtherConversation(p, c, layer))
            && (v.value.cause == CONTEXT_ORDER_CHANGED <==>
                  !compacted && p.norm != c.norm && !OtherConversation(p, c, layer)
                  && HasFp(prev, c.fp) && HasFp(cur, p.fp))
  {
    FirstDifference(prevRaw, curRaw, layer, i);
    JudgeStructure(DropMeta(prevRaw), DropMeta(curRaw), layer, i);
  }

  lemma JudgeStructure(prev: seq<PrefixBlock>, cur: seq<PrefixBlock>, layer: Layer, i: nat)
    requires i < |prev| && i < |cur|
    ensures var v, p, c := Judge(prev, cur, layer, i), prev[i], cur[i];
            var compacted := p.kind.PostCompact? || c.kind.PostCompact?;
            && (compacted ==> v == Verdict(COMPACTION, Block(c)))
            && (!compacted && p.norm == c.norm ==> v == Verdict(SYSTEM_TIMESTAMP, Block(c)))
            && (v.cause == SUBAGENT_INTERLEAVE <==> !compacted && p.norm != c.norm && OtherConversation(p, c, layer))
            && (v.cause == CONTEXT_ORDER_CHANGED <==>
                  !compacted && p.norm != c.norm && !OtherConversation(p, c, layer)
                  && HasFp(prev, c.fp) && HasFp(cur, p.fp))
  {}

  /** A skill catalog where there was none is an injection, one that shrank by more than a tenth a truncation. */
  predicate NamesCatalog(cause: Cause, prev: seq<PrefixBlock>, p: PrefixBlock, c: PrefixBlock) {
    && (cause == SKILL_INJECTION <==> c.kind.SkillCatalog? && !HasKind(prev, SkillCatalog))
    && (cause == SKILL_DESCRIPTION_TRUNCATION <==>
          c.kind.SkillCatalog? && p.kind.SkillCatalog? && HasKind(prev, SkillCatalog)
          && c.len as real < p.len as real * 0.9)
  }

  /** A block rewritten in place is blamed, and named by its new content. */
  lemma {:induction false} RewrittenBlockVerdict(
    prevRaw: seq<PrefixBlock>, curRaw: seq<PrefixBlock>, layer: Layer, i: nat)
    requires var prev, cur := DropMeta(prevRaw), DropMeta(curRaw);
             && |prev| == |cur| && i < |prev| && prev[i].fp != cur[i].fp
             && (forall j :: 0 <= j < i ==> prev[j].fp == cur[j].fp) && Plain(prev, cur, prev[i], cur[i], layer)
    ensures var prev, cur, v := DropMeta(prevRaw), DropMeta(curRaw), DiffBlocks(prevRaw, curRaw, layer);
            && v.Some? && v.value.culprit == Block(cur[i]) && NamesCatalog(v.value.cause, prev, prev[i], cur[i])
            && (v.value.cause != SKILL_INJECTION && v.value.cause != SKILL_DESCRIPTION_TRUNCATION ==>
                  NamesContent(v.value.cause, cur[i].kind, UNCLASSIFIED))
  {
    FirstDifference(prevRaw, curRaw, layer, i);
  }

  lemma JudgeSpliced(prev: seq<PrefixBlock>, cur: seq<PrefixBlock>, layer: Layer, i: nat)
    requires |cur| > |prev| > i && cur[i + 1].fp == prev[i].fp && Plain(prev, cur, prev[i], cur[i], layer)
    ensures var v := Judge(prev, cur, layer, i);
            && v.culprit == Block(cur[i]) && NamesCatalog(v.cause, prev, prev[i], cur[i])
            && (v.cause != SKILL_INJECTION && v.cause != SKILL_DESCRIPTION_TRUNCATION ==>
                  NamesContent(v.cause, cur[i].kind, MESSAGE_SPLICED))
  {}

  /** A block that was spliced in is blamed, and named by its content; plain text is called spliced. */
  lemma {:induction false} InsertedBlockVerdict(
    prevRaw: seq<PrefixBlock>, curRaw: seq<PrefixBlock>, layer: Layer, i: nat)
    requires var prev, cur := DropMeta(prevRaw), DropMeta(curRaw);
             && |cur| > |prev| > i && prev[i].fp != cur[i].fp && cur[i + 1].fp == prev[i].fp
             && (forall j :: 0 <= j < i ==> prev[j].fp == cur[j].fp) && Plain(prev, cur, prev[i], cur[i], layer)
    ensures var prev, cur, v := DropMeta(prevRaw), DropMeta(curRaw), DiffBlocks(prevRaw, curRaw, layer);
            && v.Some? && v.value.culprit == Block(cur[i]) && NamesCatalog(v.value.cause, prev, prev[i], cur[i])
            && (v.value.cause != SKILL_INJECTION && v.value.cause != SKILL_DESCRIPTION_TRUNCATION ==>
                  NamesContent(v.value.cause, cur[i].kind, MESSAGE_SPLICED))
  {
    FirstDifference(prevRaw, curRaw, layer, i);
    JudgeSpliced(DropMeta(prevRaw), DropMeta(curRaw), layer, i);
  }

  predicate OfConversation(b: PrefixBlock) {
    b.kind.UserText? || b.kind.History? || b.kind.Attachment? || b.kind.ExecResult?
  }

  /** When only a tail was dropped, its first block is blamed: as trimmed when it is part of the conversation, else by
      its content. */
  lemma {:induction false} DroppedTailVerdict(prevRaw: seq<PrefixBlock>, curRaw: seq<PrefixBlock>, layer: Layer)
    requires var prev, cur := DropMeta(prevRaw), DropMeta(curRaw);
             |prev| > |cur| && forall j :: 0 <= j < |cur| ==> prev[j].fp == cur[j].fp
    ensures var v, b := DiffBlocks(prevRaw, curRaw, layer), DropMeta(prevRaw)[|DropMeta(curRaw)|];
            && v.Some? && v.value.culprit == Block(b)
            && (v.value.cause == MESSAGE_TRIMMED <==> layer.Message? && OfConversation(b))
            && (v.value.cause != MESSAGE_TRIMMED ==> NamesContent(v.value.cause, b.kind, UNCLASSIFIED))
  {
    var prev, cur := DropMeta(prevRaw), DropMeta(curRaw);
    DivergenceIsFirst(prev, cur, 0, |cur|);
  }

  /** What the classifier skips is exactly the billing header. */
  lemma {:induction false} OnlyMetaDropped(blocks: seq<PrefixBlock>, b: PrefixBlock)
    ensures b in DropMeta(blocks) <==> b in blocks && !b.kind.AgentMeta?
  {
    if blocks != [] {
      OnlyMetaDropped(blocks[1..], b);
      assert blocks == [blocks[0]] + blocks[1..];
    }
  }

  lemma {:induction false} DropMetaAppends(a: seq<PrefixBlock>, b: seq<PrefixBlock>)
    ensures DropMeta(a + b) == DropMeta(a) + DropMeta(b)
  {
    if a == [] {
      assert a + b == b;
    } else {
      assert (a + b)[1..] == a[1..] + b;
      DropMetaAppends(a[1..], b);
    }
  }
}
