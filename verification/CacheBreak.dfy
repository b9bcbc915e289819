/** The cache-break classifier: layered diffs of two consecutive turns' cached prefixes. */
module CacheBreak {
  import opened Wrappers

  datatype Kind =
    | ClaudeMd | Rule | Memory | AgentMeta | SkillCatalog | AgentCatalog | Hook | Date
    | ExecResult | PostCompact | SystemText | UserText | History | Attachment

  datatype Layer = System | Message

  datatype PrefixBlock = PrefixBlock(kind: Kind, label_: string, fp: string, norm: string, len: nat)

  datatype PrefixTool = PrefixTool(name: string, deferred: bool, fp: string)

  datatype TurnPrefix = TurnPrefix(
    model: string, thinking: string, effortParam: string, toolChoice: string, speed: string,
    envFp: string, envNorm: string, gitFp: string, gitNorm: string,
    hasCacheControl: bool, promptTokensApprox: nat,
    tools: seq<PrefixTool>, systemBlocks: seq<PrefixBlock>, messageBlocks: seq<PrefixBlock>)

  datatype Cause =
    | TOOLSET_CHANGED | TOOLS_REORDERED | TOOL_SEARCH_DEFERRED | MCP_TOOLS_CHANGED | PLUGINS_RELOADED
    | MODEL_SWITCH | EFFORT_SWITCH | HOOK_INJECTION | SKILL_INJECTION | SKILL_DESCRIPTION_TRUNCATION
    | SKILL_CHANGED | INLINE_EXEC_RESULT_CHANGED | CLAUDE_MD_CHANGED | MEMORY_FILE_CHANGED
    | AGENT_METADATA_CHANGED | SYSTEM_TIMESTAMP | CONTEXT_ORDER_CHANGED | TTL_EXPIRY | COLD_START
    | COMPACTION | SUBAGENT_INTERLEAVE | NORMAL_GROWTH | MESSAGE_TRIMMED | MESSAGE_SPLICED
    | ATTACHMENT_CHANGED | WORKING_DIR_CHANGED | GIT_STATE_CHANGED | THINKING_CONFIG_CHANGED
    | EFFORT_PARAM_CHANGED | TOOL_CHOICE_CHANGED | LOOKBACK_OVERFLOW | BELOW_MIN_CACHEABLE
    | CACHING_DISABLED | UNCLASSIFIED

  /** Who is blamed: one block, some tools, or a fixed tag. */
  datatype Culprit = Block(b: PrefixBlock) | Tools(names: seq<string>) | Tag(id: string)

  datatype Verdict = Verdict(cause: Cause, culprit: Culprit)

  /** The causes that deny any change of the prefix. */
  predicate TimingOnly(c: Cause) {
    c == TTL_EXPIRY || c == LOOKBACK_OVERFLOW || c == NORMAL_GROWTH
  }

  // ---- Block layers ----

  function CauseForContentKind(kind: Kind): Cause {
    match kind
    case ClaudeMd => CLAUDE_MD_CHANGED
    case Rule => CLAUDE_MD_CHANGED
    case Memory => MEMORY_FILE_CHANGED
    case AgentMeta => AGENT_METADATA_CHANGED
    case AgentCatalog => AGENT_METADATA_CHANGED
    case SkillCatalog => SKILL_CHANGED
    case Hook => HOOK_INJECTION
    case Date => SYSTEM_TIMESTAMP
    case ExecResult => INLINE_EXEC_RESULT_CHANGED
    case PostCompact => COMPACTION
    case Attachment => ATTACHMENT_CHANGED
    case _ => UNCLASSIFIED
  }

  /** Blocks without the billing header, which is no part of the cache key. */
  function DropMeta(blocks: seq<PrefixBlock>): seq<PrefixBlock> {
    if blocks == [] then []
    else (if blocks[0].kind.AgentMeta? then [] else [blocks[0]]) + DropMeta(blocks[1..])
  }

  predicate HasFp(blocks: seq<PrefixBlock>, fp: string) {
    exists i :: 0 <= i < |blocks| && blocks[i].fp == fp
  }

  predicate HasKind(blocks: seq<PrefixBlock>, kind: Kind) {
    exists i :: 0 <= i < |blocks| && blocks[i].kind == kind
  }

  predicate InMessage0(layer: Layer, c: PrefixBlock, p: PrefixBlock) {
    layer.Message? && "msg[0]" <= c.label_ && c.kind.UserText? && p.kind.UserText?
  }

  predicate Truncated(c: PrefixBlock, p: PrefixBlock) {
    c.kind.SkillCatalog? && p.kind.SkillCatalog? && 10 * c.len < 9 * p.len
  }

  /** The verdict on the first position where the two lists differ. */
  function Judge(prev: seq<PrefixBlock>, cur: seq<PrefixBlock>, layer: Layer, i: nat): Verdict
    requires i < |prev| && i < |cur|
  {
    var p, c := prev[i], cur[i];
    if c.kind.PostCompact? || p.kind.PostCompact? then Verdict(COMPACTION, Block(c))
    else if p.norm == c.norm then Verdict(SYSTEM_TIMESTAMP, Block(c))
    else if InMessage0(layer, c, p) then Verdict(SUBAGENT_INTERLEAVE, Tag("interleave:root-differs"))
    else if HasFp(prev, c.fp) && HasFp(cur, p.fp) then Verdict(CONTEXT_ORDER_CHANGED, Tag("order"))
    else if c.kind.SkillCatalog? && !HasKind(prev, SkillCatalog) then Verdict(SKILL_INJECTION, Block(c))
    else if Truncated(c, p) then Verdict(SKILL_DESCRIPTION_TRUNCATION, Block(c))
    else if |cur| > |prev| && i + 1 < |cur| && cur[i + 1].fp == p.fp then
      var inserted := CauseForContentKind(c.kind);
      Verdict(if inserted == UNCLASSIFIED then MESSAGE_SPLICED else inserted, Block(c))
    else if |cur| < |prev| && i + 1 < |prev| && prev[i + 1].fp == c.fp then Verdict(MESSAGE_TRIMMED, Block(p))
    else Verdict(CauseForContentKind(c.kind), Block(c))
  }

  /** The verdict on a prefix that only lost its tail. */
  function JudgeDropped(dropped: PrefixBlock, layer: Layer): Verdict {
    if dropped.kind.PostCompact? then Verdict(COMPACTION, Block(dropped))
    else if dropped.kind.SkillCatalog? then Verdict(SKILL_CHANGED, Block(dropped))
    else if layer.Message?
      && (dropped.kind.UserText? || dropped.kind.History? || dropped.kind.Attachment? || dropped.kind.ExecResult?) then
      Verdict(MESSAGE_TRIMMED, Block(dropped))
    else Verdict(CauseForContentKind(dropped.kind), Block(dropped))
  }

  /** The first position from `i` on where the fingerprints differ, or the end of the shorter list. */
  function Divergence(prev: seq<PrefixBlock>, cur: seq<PrefixBlock>, i: nat): (d: nat)
    decreases |prev| - i
  {
    if i < |prev| && i < |cur| && prev[i].fp == cur[i].fp then Divergence(prev, cur, i + 1) else i
  }

  function BlocksVerdict(prev: seq<PrefixBlock>, cur: seq<PrefixBlock>, layer: Layer): Option<Verdict> {
    var i := Divergence(prev, cur, 0);
    if i < |prev| && i < |cur| then Some(Judge(prev, cur, layer, i))
    else if |prev| > |cur| then Some(JudgeDropped(prev[|cur|], layer))
    else None
  }

  function DiffBlocks(prevRaw: seq<PrefixBlock>, curRaw: seq<PrefixBlock>, layer: Layer): (v: Option<Verdict>)
    ensures v.Some? ==> !TimingOnly(v.value.cause)
  {
    BlocksVerdict(DropMeta(prevRaw), DropMeta(curRaw), layer)
  }

  method DiffBlocksByPosition(prevRaw: seq<PrefixBlock>, curRaw: seq<PrefixBlock>, layer: Layer)
    returns (v: Option<Verdict>)
    ensures v == DiffBlocks(prevRaw, curRaw, layer)
  {
    var prev, cur := DropMeta(prevRaw), DropMeta(curRaw);
    var n := if |prev| < |cur| then |prev| else |cur|;
    for i := 0 to n
      invariant Divergence(prev, cur, 0) == Divergence(prev, cur, i)
    {
      if prev[i].fp == cur[i].fp {
        continue;
      }
      return Some(Judge(prev, cur, layer, i));
    }
    if |prev| > |cur| {
      return Some(JudgeDropped(prev[|cur|], layer));
    }
    return None;
  }

  /** `cur` starts with the same fingerprints as `prev`. */
  predicate Extends(prev: seq<PrefixBlock>, cur: seq<PrefixBlock>) {
    |prev| <= |cur| && forall i :: 0 <= i < |prev| ==> prev[i].fp == cur[i].fp
  }

  lemma {:induction false} DivergenceIsFirst(prev: seq<PrefixBlock>, cur: seq<PrefixBlock>, i: nat, k: nat)
    requires i <= k <= |prev| && k <= |cur|
    requires forall j :: i <= j < k ==> prev[j].fp == cur[j].fp
    requires k < |prev| && k < |cur| ==> prev[k].fp != cur[k].fp
    ensures Divergence(prev, cur, i) == if k < |prev| && k < |cur| then k else Divergence(prev, cur, k)
    decreases k - i
  {
    if i < k { DivergenceIsFirst(prev, cur, i + 1, k); }
  }

  lemma {:induction false} DivergenceBounds(prev: seq<PrefixBlock>, cur: seq<PrefixBlock>, i: nat)
    requires i <= |prev| && i <= |cur|
    ensures var d := Divergence(prev, cur, i);
            i <= d <= |prev| && d <= |cur| && (forall j :: i <= j < d ==> prev[j].fp == cur[j].fp)
            && (d < |prev| && d < |cur| ==> prev[d].fp != cur[d].fp)
    decreases |prev| - i
  {
    if i < |prev| && i < |cur| && prev[i].fp == cur[i].fp { DivergenceBounds(prev, cur, i + 1); }
  }

  /** The block diff is silent exactly on pure extension. */
  lemma {:induction false} BlocksQuietIffExtension(prevRaw: seq<PrefixBlock>, curRaw: seq<PrefixBlock>, layer: Layer)
    ensures DiffBlocks(prevRaw, curRaw, layer).None? <==> Extends(DropMeta(prevRaw), DropMeta(curRaw))
  {
    DivergenceBounds(DropMeta(prevRaw), DropMeta(curRaw), 0);
  }

  lemma {:induction false} DropMetaKinds(blocks: seq<PrefixBlock>)
    ensures forall b :: b in DropMeta(blocks) ==> !b.kind.AgentMeta?
  {
    if blocks != [] { DropMetaKinds(blocks[1..]); }
  }

  lemma JudgeInserted(prev: seq<PrefixBlock>, cur: seq<PrefixBlock>, layer: Layer, i: nat)
    requires i < |prev| < |cur| && i + 1 < |cur| && cur[i + 1].fp == prev[i].fp
    requires !HasFp(prev, cur[i].fp) && !cur[i].kind.AgentMeta?
    ensures var v := Judge(prev, cur, layer, i);
            && v.cause != UNCLASSIFIED && v.cause != CONTEXT_ORDER_CHANGED
            && (if InMessage0(layer, cur[i], prev[i]) && cur[i].norm != prev[i].norm then v.cause == SUBAGENT_INTERLEAVE
                else v.culprit == Block(cur[i]) && v.cause != SUBAGENT_INTERLEAVE)
  {}

  /** A block with a fresh fingerprint spliced into the prefix is the one that is blamed, and the cause
      is named; the only other verdict is the one on two conversations sharing a session. */
  lemma {:induction false} InsertedBlockBlamed(
    prevRaw: seq<PrefixBlock>, curRaw: seq<PrefixBlock>, layer: Layer,
    before: seq<PrefixBlock>, b: PrefixBlock, after: seq<PrefixBlock>)
    requires DropMeta(prevRaw) == before + after && DropMeta(curRaw) == before + [b] + after
    requires after != [] && !HasFp(before + after, b.fp)
    ensures var v := DiffBlocks(prevRaw, curRaw, layer);
            && v.Some?
            && v.value.cause != UNCLASSIFIED && v.value.cause != CONTEXT_ORDER_CHANGED
            && (if InMessage0(layer, b, after[0]) && b.norm != after[0].norm then v.value.cause == SUBAGENT_INTERLEAVE
                else v.value.culprit == Block(b) && v.value.cause != SUBAGENT_INTERLEAVE)
  {
    var prev, cur, i := before + after, before + [b] + after, |before|;
    assert prev[i] == after[0] && cur[i] == b && cur[i + 1] == after[0];
    forall j | 0 <= j < i ensures prev[j].fp == cur[j].fp {
      assert prev[j] == before[j] == cur[j];
    }
    DropMetaKinds(curRaw);
    assert b in cur && prev[i].fp != b.fp;
    DivergenceIsFirst(prev, cur, 0, i);
    JudgeInserted(prev, cur, layer, i);
  }

  lemma JudgeRemoved(prev: seq<PrefixBlock>, cur: seq<PrefixBlock>, layer: Layer, i: nat)
    requires i < |cur| < |prev| && i + 1 < |prev| && prev[i + 1] == cur[i]
    requires !HasFp(cur, prev[i].fp)
    ensures var v, b, next := Judge(prev, cur, layer, i), prev[i], cur[i];
            && (v.culprit == Block(b) <==>
                  !b.kind.PostCompact? && !next.kind.PostCompact? && b.norm != next.norm
                  && !InMessage0(layer, next, b) && !Truncated(next, b))
            && (v.culprit == Block(b) ==> v.cause == MESSAGE_TRIMMED)
  {
    assert prev[i].fp != cur[i].fp && HasKind(prev, cur[i].kind);
  }

  lemma DroppedIsBlamed(b: PrefixBlock, layer: Layer)
    ensures JudgeDropped(b, layer).culprit == Block(b)
  {}

  /** A removed block with a unique fingerprint is itself blamed exactly when it was the tail, or when
      no more specific rule claims its successor. */
  lemma {:induction false} RemovedBlockBlamed(
    prevRaw: seq<PrefixBlock>, curRaw: seq<PrefixBlock>, layer: Layer,
    before: seq<PrefixBlock>, b: PrefixBlock, after: seq<PrefixBlock>)
    requires DropMeta(prevRaw) == before + [b] + after && DropMeta(curRaw) == before + after
    requires !HasFp(before + after, b.fp)
    ensures var v := DiffBlocks(prevRaw, curRaw, layer);
            && v.Some?
            && (v.value.culprit == Block(b) <==>
                  after == [] ||
                  (!b.kind.PostCompact? && !after[0].kind.PostCompact? && b.norm != after[0].norm
                   && !InMessage0(layer, after[0], b) && !Truncated(after[0], b)))
            && (after != [] && v.value.culprit == Block(b) ==> v.value.cause == MESSAGE_TRIMMED)
  {
    var prev, cur, i := before + [b] + after, before + after, |before|;
    assert prev[i] == b && forall j :: 0 <= j < i ==> prev[j] == before[j] == cur[j];
    if after == [] {
      DivergenceBounds(prev, cur, 0);
      assert DiffBlocks(prevRaw, curRaw, layer) == Some(JudgeDropped(b, layer));
      DroppedIsBlamed(b, layer);
    } else {
      assert cur[i] == after[0] && prev[i + 1] == after[0];
      DivergenceIsFirst(prev, cur, 0, i);
      assert DiffBlocks(prevRaw, curRaw, layer) == Some(Judge(prev, cur, layer, i));
      JudgeRemoved(prev, cur, layer, i);
    }
  }

  // ---- The tools layer ----

  function Names(tools: seq<PrefixTool>): (names: seq<string>)
    ensures |names| == |tools| && forall i :: 0 <= i < |tools| ==> names[i] == tools[i].name
  {
    seq(|tools|, i requires 0 <= i < |tools| => tools[i].name)
  }

  function Without(names: seq<string>, other: seq<string>): (out: seq<string>)
    ensures forall n :: n in out <==> n in names && n !in other
  {
    if names == [] then []
    else (if names[0] in other then [] else [names[0]]) + Without(names[1..], other)
  }

  /** The first tool of that name. */
  function FindTool(tools: seq<PrefixTool>, name: string): (t: Option<PrefixTool>)
    ensures t.None? <==> name !in Names(tools)
    ensures t.Some? ==> t.value in tools && t.value.name == name
  {
    if tools == [] then None
    else if tools[0].name == name then
      assert Names(tools)[0] == name;
      Some(tools[0])
    else
      assert Names(tools) == [tools[0].name] + Names(tools[1..]);
      FindTool(tools[1..], name)
  }

  /** The first of `cur` whose definition differs from the first of that name in `prev`. */
  function FirstRedefined(prev: seq<PrefixTool>, cur: seq<PrefixTool>): (t: Option<PrefixTool>)
    ensures t.None?
            <==> forall i :: 0 <= i < |cur| && FindTool(prev, cur[i].name).Some? ==>
                   FindTool(prev, cur[i].name).value.fp == cur[i].fp
  {
    if cur == [] then None
    else
      var p := FindTool(prev, cur[0].name);
      if p.Some? && p.value.fp != cur[0].fp then Some(cur[0]) else FirstRedefined(prev, cur[1..])
  }

  lemma WithoutAll(names: seq<string>, other: seq<string>)
    requires forall n :: n in names ==> n in other
    ensures Without(names, other) == []
  {}

  const DEFERRED_BUILTINS: set<string> := {
    "AskUserQuestion", "CronCreate", "CronDelete", "CronList", "SendMessage",
    "TaskCreate", "TaskGet", "TaskList", "TaskOutput", "TaskStop", "TaskUpdate",
    "WebFetch", "WebSearch", "NotebookEdit", "LSP", "Monitor", "PushNotification",
    "RemoteTrigger", "DesignSync", "EnterPlanMode", "ExitPlanMode", "EnterWorktree",
    "ExitWorktree", "ReadMcpResourceTool", "ReadMcpResourceDirTool", "ListMcpResourcesTool"
  }

  /** The first position whose name is not the one `prev` has there, or the end of `cur`. */
  function FirstMoved(prev: seq<string>, cur: seq<string>, i: nat): nat
    decreases |cur| - i
  {
    if i >= |cur| || i >= |prev| || prev[i] != cur[i] then i else FirstMoved(prev, cur, i + 1)
  }

  /** The first tool out of its place, or the first of all. */
  function MovedTool(prev: seq<string>, cur: seq<string>): seq<string> {
    var moved := FirstMoved(prev, cur, 0);
    if moved < |cur| then [cur[moved]] else if cur != [] then cur[..1] else []
  }

  function DiffTools(prev: seq<PrefixTool>, cur: seq<PrefixTool>): (v: Option<Verdict>)
    ensures v.Some? ==> !TimingOnly(v.value.cause)
  {
    var prevNames, curNames := Names(prev), Names(cur);
    var added, removed := Without(curNames, prevNames), Without(prevNames, curNames);
    var changed := added + removed;
    if changed != [] then
      if removed == [] && forall n :: n in added ==> FindTool(cur, n).Some? && FindTool(cur, n).value.deferred then
        Some(Verdict(TOOL_SEARCH_DEFERRED, Tools(added)))
      else if forall n :: n in changed ==> "mcp__" <= n then Some(Verdict(MCP_TOOLS_CHANGED, Tools(changed)))
      else if forall n :: n in changed ==> n in DEFERRED_BUILTINS then
        Some(Verdict(TOOL_SEARCH_DEFERRED, Tag("harness:deferred-builtins")))
      else Some(Verdict(TOOLSET_CHANGED, Tools(changed)))
    else if curNames != prevNames then
      Some(Verdict(TOOLS_REORDERED, Tools(MovedTool(prevNames, curNames))))
    else
      var redefined := FirstRedefined(prev, cur);
      if redefined.Some? then Some(Verdict(TOOLSET_CHANGED, Tools([redefined.value.name]))) else None
  }

  predicate SameTools(prev: seq<PrefixTool>, cur: seq<PrefixTool>) {
    |prev| == |cur| && forall i :: 0 <= i < |prev| ==> prev[i].name == cur[i].name && prev[i].fp == cur[i].fp
  }

  /** Tools of one name share one definition; distinct names are the usual reason. */
  predicate Coherent(tools: seq<PrefixTool>) {
    forall i, j :: 0 <= i < |tools| && 0 <= j < |tools| && tools[i].name == tools[j].name ==> tools[i].fp == tools[j].fp
  }

  /** The catalog as the diff reads it: every name stands for its first definition. */
  function Read(tools: seq<PrefixTool>): (read: seq<PrefixTool>)
    ensures |read| == |tools| && forall i :: 0 <= i < |tools| ==> read[i].name == tools[i].name
  {
    seq(|tools|, i requires 0 <= i < |tools| =>
      var first := FindTool(tools, tools[i].name);
      if first.Some? then tools[i].(fp := first.value.fp) else tools[i])
  }

  lemma {:induction false} ReadAt(tools: seq<PrefixTool>, i: nat) returns (j: nat)
    requires i < |tools|
    ensures j < |tools| && tools[j].name == tools[i].name && Read(tools)[i].fp == tools[j].fp
    ensures FindTool(tools, tools[i].name) == Some(tools[j])
  {
    assert Names(tools)[i] in Names(tools);
    var first := FindTool(tools, tools[i].name).value;
    j :| 0 <= j < |tools| && tools[j] == first;
  }

  lemma {:induction false} ReadByName(tools: seq<PrefixTool>, i: nat, j: nat)
    requires i < |tools| && j < |tools| && tools[i].name == tools[j].name
    ensures Read(tools)[i].fp == Read(tools)[j].fp
  {
    var _ := ReadAt(tools, i);
    var _ := ReadAt(tools, j);
  }

  /** The tools diff is silent exactly when the new catalog is the old one as it was read. */
  lemma {:induction false} ToolsQuietIffRead(prev: seq<PrefixTool>, cur: seq<PrefixTool>)
    ensures DiffTools(prev, cur).None? <==> SameTools(Read(prev), cur)
  {
    var prevNames, curNames := Names(prev), Names(cur);
    if SameTools(Read(prev), cur) {
      assert curNames == prevNames;
    }
    if curNames == prevNames {
      WithoutAll(prevNames, prevNames);
      forall i | 0 <= i < |cur|
        ensures prev[i].name == cur[i].name && FindTool(prev, cur[i].name).Some?
        ensures Read(prev)[i].fp == FindTool(prev, cur[i].name).value.fp
      {
        assert prevNames[i] == curNames[i];
        var _ := ReadAt(prev, i);
      }
    }
  }

  lemma {:induction false} CoherentIffRead(tools: seq<PrefixTool>)
    ensures Coherent(tools) <==> SameTools(Read(tools), tools)
  {
    if Coherent(tools) {
      forall i | 0 <= i < |tools| ensures Read(tools)[i].fp == tools[i].fp {
        var j := ReadAt(tools, i);
        assert tools[i].name == tools[j].name;
      }
    }
    if SameTools(Read(tools), tools) {
      forall i, j | 0 <= i < |tools| && 0 <= j < |tools| && tools[i].name == tools[j].name
        ensures tools[i].fp == tools[j].fp
      {
        ReadByName(tools, i, j);
      }
    }
  }

  /** On a coherent catalog the tools diff is silent exactly when the catalogs are equal. */
  lemma {:induction false} ToolsQuietIffSame(prev: seq<PrefixTool>, cur: seq<PrefixTool>)
    requires Coherent(prev)
    ensures DiffTools(prev, cur).None? <==> SameTools(prev, cur)
  {
    ToolsQuietIffRead(prev, cur);
    CoherentIffRead(prev);
  }

  /** The tools diff notices every change of a catalog exactly when the catalog does not repeat a name with two
      definitions. */
  lemma {:induction false} ChangesNoticedIffCoherent(prev: seq<PrefixTool>)
    ensures (forall cur :: DiffTools(prev, cur).None? ==> SameTools(prev, cur)) <==> Coherent(prev)
  {
    if Coherent(prev) {
      forall cur | DiffTools(prev, cur).None? ensures SameTools(prev, cur) { ToolsQuietIffSame(prev, cur); }
    } else {
      ToolsQuietIffRead(prev, Read(prev));
      CoherentIffRead(prev);
      assert DiffTools(prev, Read(prev)).None? && !SameTools(prev, Read(prev));
    }
  }

  /** An unchanged catalog is reported as changed exactly when it repeats a name with two definitions. */
  lemma {:induction false} UnchangedToolsQuietIffCoherent(tools: seq<PrefixTool>)
    ensures DiffTools(tools, tools).None? <==> Coherent(tools)
  {
    ToolsQuietIffRead(tools, tools);
    CoherentIffRead(tools);
  }

  /** A catalog that lists "t" with two definitions, compared with itself. */
  lemma RepeatedNameLooksChanged()
    ensures var tools := [PrefixTool("t", false, "1"), PrefixTool("t", false, "2")];
            DiffTools(tools, tools) == Some(Verdict(TOOLSET_CHANGED, Tools(["t"])))
  {
    var tools := [PrefixTool("t", false, "1"), PrefixTool("t", false, "2")];
    WithoutAll(Names(tools), Names(tools));
    assert FindTool(tools, "t") == Some(tools[0]);
    assert tools[1..] == [tools[1]];
    assert FirstRedefined(tools, tools) == FirstRedefined(tools, tools[1..]) == Some(tools[1]);
  }

  /** The same catalog, compared with one that gives both the first definition: the change goes unnoticed. */
  lemma RedefinedRepeatUnnoticed()
    ensures var prev := [PrefixTool("t", false, "1"), PrefixTool("t", false, "2")];
            var cur := [PrefixTool("t", false, "1"), PrefixTool("t", false, "1")];
            DiffTools(prev, cur).None? && !SameTools(prev, cur)
  {
    var prev := [PrefixTool("t", false, "1"), PrefixTool("t", false, "2")];
    var cur := [PrefixTool("t", false, "1"), PrefixTool("t", false, "1")];
    assert FindTool(prev, "t") == Some(prev[0]);
    ToolsQuietIffRead(prev, cur);
    assert prev[1].fp != cur[1].fp;
  }

  // ---- The whole classifier ----

  datatype BreakTiming = BreakTiming(gapMs: Option<int>, cacheReadTokens: nat, cacheCreateTokens: nat,
                                     blocksAddedSinceLastWrite: Option<nat>)

  const FIVE_MIN := 5 * 60_000
  const ONE_HOUR := 60 * 60_000
  const LOOKBACK_WINDOW_BLOCKS := 20

  function OfKind(blocks: seq<PrefixBlock>, kind: Kind): multiset<string> {
    if blocks == [] then multiset{}
    else OfKind(blocks[1..], kind) + if blocks[0].kind == kind then multiset{blocks[0].fp} else multiset{}
  }

  /** An established catalog of the system prompt was registered anew. */
  predicate CatalogChurned(prev: TurnPrefix, cur: TurnPrefix, kind: Kind) {
    HasKind(prev.systemBlocks, kind) && OfKind(prev.systemBlocks, kind) != OfKind(cur.systemBlocks, kind)
  }

  predicate ParamChanged(a: string, b: string) {
    a != "" && b != "" && a != b
  }

  predicate SameStream(a: TurnPrefix, b: TurnPrefix) {
    a.model == b.model && SameTools(a.tools, b.tools)
  }

  /** A turn with no cache activity at all: never offered to the cache, or too small for it. */
  function NoCacheActivity(cur: TurnPrefix, timing: BreakTiming, minCacheable: string -> Option<nat>): Option<Verdict> {
    if timing.cacheCreateTokens != 0 || timing.cacheReadTokens != 0 then None
    else if !cur.hasCacheControl then Some(Verdict(CACHING_DISABLED, Tag("config:no-cache-control")))
    else if minCacheable(cur.model).Some? && cur.promptTokensApprox < minCacheable(cur.model).value then
      Some(Verdict(BELOW_MIN_CACHEABLE, Tag(cur.model)))
    else None
  }

  /** Model and catalogs; two catalogs churning together is a plugin reload. */
  function CatalogCause(prev: TurnPrefix, cur: TurnPrefix): (v: Option<Verdict>)
    ensures v.Some? ==> !TimingOnly(v.value.cause)
    ensures v.None? ==> prev.model == cur.model && DiffTools(prev.tools, cur.tools).None?
  {
    if prev.model != cur.model then Some(Verdict(MODEL_SWITCH, Tag("model")))
    else
      var tools := DiffTools(prev.tools, cur.tools);
      var churned := (if prev.tools != [] && tools.Some? then 1 else 0)
                     + (if CatalogChurned(prev, cur, SkillCatalog) then 1 else 0)
                     + (if CatalogChurned(prev, cur, AgentCatalog) then 1 else 0);
      if churned >= 2 then Some(Verdict(PLUGINS_RELOADED, Tag("plugins:reloaded"))) else tools
  }

  /** Request parameters given explicitly in both turns, then the regions of the system prompt. */
  function ParameterCause(prev: TurnPrefix, cur: TurnPrefix): (v: Option<Verdict>)
    ensures v.Some? ==> !TimingOnly(v.value.cause)
  {
    if ParamChanged(prev.thinking, cur.thinking) then Some(Verdict(THINKING_CONFIG_CHANGED, Tag("param:thinking")))
    else if ParamChanged(prev.effortParam, cur.effortParam) then
      Some(Verdict(EFFORT_PARAM_CHANGED, Tag("param:effort")))
    else if ParamChanged(prev.toolChoice, cur.toolChoice) then
      Some(Verdict(TOOL_CHOICE_CHANGED, Tag("param:tool_choice")))
    else if ParamChanged(prev.speed, cur.speed) then Some(Verdict(EFFORT_SWITCH, Tag("param:speed")))
    else if prev.envFp != cur.envFp && prev.envNorm != cur.envNorm then
      Some(Verdict(WORKING_DIR_CHANGED, Tag("system:env-block")))
    else if prev.gitFp != cur.gitFp && prev.gitNorm != cur.gitNorm then
      Some(Verdict(GIT_STATE_CHANGED, Tag("system:git-snapshot")))
    else None
  }

  function OrElse(a: Option<Verdict>, b: Option<Verdict>): Option<Verdict> {
    if a.Some? then a else b
  }

  /** The structural causes, in the order of the layers they invalidate. */
  function StructuralCause(prev: TurnPrefix, cur: TurnPrefix): Option<Verdict> {
    OrElse(CatalogCause(prev, cur),
    OrElse(ParameterCause(prev, cur),
    OrElse(DiffBlocks(prev.systemBlocks, cur.systemBlocks, System),
           DiffBlocks(prev.messageBlocks, cur.messageBlocks, Message))))
  }

  /** What is left when no layer changed: a matter of timing. */
  function TimingCause(prev: TurnPrefix, cur: TurnPrefix, timing: BreakTiming): Verdict {
    if timing.gapMs.Some? && timing.gapMs.value >= ONE_HOUR then Verdict(TTL_EXPIRY, Tag("timing:TTL_EXPIRY:1h"))
    else if timing.gapMs.Some? && 270_000 <= timing.gapMs.value < 360_000 then
      Verdict(TTL_EXPIRY, Tag("timing:TTL_EXPIRY:5m"))
    else if timing.gapMs.Some? && timing.gapMs.value >= FIVE_MIN then Verdict(TTL_EXPIRY, Tag("timing:TTL_EXPIRY:5m"))
    else if timing.blocksAddedSinceLastWrite.Some? && timing.blocksAddedSinceLastWrite.value >= LOOKBACK_WINDOW_BLOCKS
            && timing.cacheReadTokens == 0 && timing.cacheCreateTokens > 0 then
      Verdict(LOOKBACK_OVERFLOW, Tag("lookback:overflow"))
    else if timing.cacheReadTokens == 0 then Verdict(COLD_START, Tag("timing:COLD_START"))
    else if |cur.messageBlocks| > |prev.messageBlocks| then Verdict(NORMAL_GROWTH, Tag("growth:new-tail"))
    else Verdict(UNCLASSIFIED, Tag("timing:UNCLASSIFIED"))
  }

  function ClassifyCacheBreak(
    prev: Option<TurnPrefix>, cur: TurnPrefix, timing: BreakTiming, prev2: Option<TurnPrefix>,
    minCacheable: string -> Option<nat>): Verdict
  {
    var idle := NoCacheActivity(cur, timing, minCacheable);
    if idle.Some? then idle.value
    else if prev.None? then Verdict(COLD_START, Tag("timing:COLD_START"))
    else if prev2.Some? && !SameStream(prev.value, cur) && SameStream(cur, prev2.value) then
      Verdict(SUBAGENT_INTERLEAVE, Tag("interleave"))
    else
      var structural := StructuralCause(prev.value, cur);
      if structural.Some? then structural.value else TimingCause(prev.value, cur, timing)
  }

  lemma CatalogsIgnoreMessages(prev: TurnPrefix, cur: TurnPrefix, messages: seq<PrefixBlock>)
    ensures CatalogCause(prev, cur.(messageBlocks := messages)) == CatalogCause(prev, cur)
  {}

  lemma ParametersIgnoreMessages(prev: TurnPrefix, cur: TurnPrefix, messages: seq<PrefixBlock>)
    ensures ParameterCause(prev, cur.(messageBlocks := messages)) == ParameterCause(prev, cur)
  {}

  /** What the message blocks hold never changes a verdict found in a higher layer, and decides when there is none. */
  lemma {:induction false} MessagesNeverMask(prev: TurnPrefix, cur: TurnPrefix)
    ensures StructuralCause(prev, cur)
         == OrElse(StructuralCause(prev, cur.(messageBlocks := prev.messageBlocks)),
                   DiffBlocks(prev.messageBlocks, cur.messageBlocks, Message))
  {
    CatalogsIgnoreMessages(prev, cur, prev.messageBlocks);
    ParametersIgnoreMessages(prev, cur, prev.messageBlocks);
    BlocksQuietIffExtension(prev.messageBlocks, prev.messageBlocks, Message);
  }

  /** Everything the cache key depends on is carried over unchanged, up to new content at the end. */
  predicate Unchanged(prev: TurnPrefix, cur: TurnPrefix) {
    && prev.model == cur.model && SameTools(prev.tools, cur.tools)
    && Extends(DropMeta(prev.systemBlocks), DropMeta(cur.systemBlocks))
    && Extends(DropMeta(prev.messageBlocks), DropMeta(cur.messageBlocks))
  }

  /** The turn as the diff reads its catalog. */
  function ReadTurn(turn: TurnPrefix): TurnPrefix {
    turn.(tools := Read(turn.tools))
  }

  lemma {:induction false} UnchangedIfCoherent(prev: TurnPrefix, cur: TurnPrefix)
    requires Coherent(prev.tools)
    ensures Unchanged(ReadTurn(prev), cur) <==> Unchanged(prev, cur)
  {
    CoherentIffRead(prev.tools);
  }

  lemma {:induction false} StructurallyQuiet(prev: TurnPrefix, cur: TurnPrefix)
    requires StructuralCause(prev, cur).None?
    ensures Unchanged(ReadTurn(prev), cur)
    ensures Coherent(prev.tools) ==> Unchanged(prev, cur)
  {
    ToolsQuietIffRead(prev.tools, cur.tools);
    BlocksQuietIffExtension(prev.systemBlocks, cur.systemBlocks, System);
    BlocksQuietIffExtension(prev.messageBlocks, cur.messageBlocks, Message);
    if Coherent(prev.tools) { UnchangedIfCoherent(prev, cur); }
  }

  /** A break is put down to timing or growth only when the whole cached prefix, as it was read, is unchanged. */
  lemma {:induction false} TimingOnlyWhenUnchanged(
    prev: Option<TurnPrefix>, cur: TurnPrefix, timing: BreakTiming, prev2: Option<TurnPrefix>,
    minCacheable: string -> Option<nat>)
    requires TimingOnly(ClassifyCacheBreak(prev, cur, timing, prev2, minCacheable).cause)
    ensures prev.Some? && Unchanged(ReadTurn(prev.value), cur)
    ensures Coherent(prev.value.tools) ==> Unchanged(prev.value, cur)
  {
    if prev.Some? {
      if StructuralCause(prev.value, cur).None? { StructurallyQuiet(prev.value, cur); }
    }
  }

  /** The catalogs, the explicit parameters and the regions of the system prompt give no cause either. */
  predicate SettingsKept(prev: TurnPrefix, cur: TurnPrefix) {
    && !(CatalogChurned(prev, cur, SkillCatalog) && CatalogChurned(prev, cur, AgentCatalog))
    && !ParamChanged(prev.thinking, cur.thinking) && !ParamChanged(prev.effortParam, cur.effortParam)
    && !ParamChanged(prev.toolChoice, cur.toolChoice) && !ParamChanged(prev.speed, cur.speed)
    && (prev.envFp == cur.envFp || prev.envNorm == cur.envNorm)
    && (prev.gitFp == cur.gitFp || prev.gitNorm == cur.gitNorm)
  }

  lemma ParametersQuietIff(prev: TurnPrefix, cur: TurnPrefix)
    ensures ParameterCause(prev, cur).None? <==>
            && !ParamChanged(prev.thinking, cur.thinking) && !ParamChanged(prev.effortParam, cur.effortParam)
            && !ParamChanged(prev.toolChoice, cur.toolChoice) && !ParamChanged(prev.speed, cur.speed)
            && (prev.envFp == cur.envFp || prev.envNorm == cur.envNorm)
            && (prev.gitFp == cur.gitFp || prev.gitNorm == cur.gitNorm)
  {}

  /** A turn is left to timing exactly when its prefix, as it was read, its parameters and its regions are carried
      over. */
  lemma {:induction false} TimingIffCarriedOver(prev: TurnPrefix, cur: TurnPrefix)
    ensures StructuralCause(prev, cur).None? <==> Unchanged(ReadTurn(prev), cur) && SettingsKept(prev, cur)
    ensures Coherent(prev.tools) ==>
            (StructuralCause(prev, cur).None? <==> Unchanged(prev, cur) && SettingsKept(prev, cur))
  {
    ToolsQuietIffRead(prev.tools, cur.tools);
    ParametersQuietIff(prev, cur);
    BlocksQuietIffExtension(prev.systemBlocks, cur.systemBlocks, System);
    BlocksQuietIffExtension(prev.messageBlocks, cur.messageBlocks, Message);
    if Coherent(prev.tools) { UnchangedIfCoherent(prev, cur); }
  }

  lemma {:induction false} RepeatIsKept(prev: TurnPrefix)
    ensures SettingsKept(prev, ReadTurn(prev)) && Unchanged(ReadTurn(prev), ReadTurn(prev))
  {}

  /** The turn that repeats another one, with the catalog as the diff read it, is left to timing. */
  lemma {:induction false} RepeatIsQuiet(prev: TurnPrefix)
    ensures StructuralCause(prev, ReadTurn(prev)).None?
  {
    TimingIffCarriedOver(prev, ReadTurn(prev));
    RepeatIsKept(prev);
  }

  /** No changed turn is left to timing exactly when its predecessor's catalog does not repeat a name with two
      definitions. */
  lemma {:induction false} TimingMeansUnchangedIffCoherent(prev: TurnPrefix)
    ensures (forall cur :: StructuralCause(prev, cur).None? ==> Unchanged(prev, cur)) <==> Coherent(prev.tools)
  {
    if Coherent(prev.tools) {
      forall cur | StructuralCause(prev, cur).None? ensures Unchanged(prev, cur) { StructurallyQuiet(prev, cur); }
    } else {
      RepeatIsQuiet(prev);
      CoherentIffRead(prev.tools);
      assert !Unchanged(prev, ReadTurn(prev));
    }
  }
}
