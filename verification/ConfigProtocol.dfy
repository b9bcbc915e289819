/** The commit protocol of the config editor as a state machine: any number of editor processes share
    one target file and its lock, and other programs write the file without taking the lock. */
module ConfigProtocol {
  import opened Wrappers
  import opened JsonTree
  import opened ConfigEdit
  import opened ConfigApplyTheorems
  import opened ConfigSharing
  import opened ConfigSharingTheorems

  /** File text: what the editor serializes for a tree, or any other text together with what it
      parses to. */
  datatype Text = Canonical(tree: Json) | Authored(id: int, parsed: Option<Json>)

  type Pid = nat

  datatype Job = Job(ops: seq<Op>, createIfMissing: bool, backup: bool, retries: int) {
    function MaxAttempts(): nat {
      if retries < 1 then 1 else retries
    }
  }

  datatype Failure = Refused | VerifyFailed | LockTimeout | ConcurrentModification | BadSpec | Crashed

  datatype Outcome = Success(changed: bool) | Failed(why: Failure)

  /** A staged edit of `raw`: the trees that earlier attempts edited, the new tree, the operations with the values they
      were applied with, and with the values they hold now, which the diffs compare against. */
  datatype Draft = Draft(earlier: seq<Json>, raw: Option<Text>, next: Json, used: seq<Op>, held: seq<Op>)

  datatype Phase =
    | Waiting
    | Holding
    | Staged(draft: Draft)
    | Rechecked(draft: Draft)
    | Replaced(draft: Draft)
    | Releasing(outcome: Outcome)
    | Finished(result: Outcome)
    | Killed
  {
    predicate InsideLock() {
      Holding? || Staged? || Rechecked? || Replaced? || Releasing?
    }

    predicate HasDraft() {
      Staged? || Rechecked? || Replaced?
    }
  }

  /** `values` are the process's operation values, which live through all its attempts; `edited` records the trees those
      attempts have edited. */
  datatype Proc = Proc(phase: Phase, attempts: nat, values: Values, edited: seq<Json>)

  /** What happened to the file so far; a commit is recorded with the trees that earlier attempts of its process had
      edited, and with the operations it applied. */
  datatype Write = Commit(pid: Pid, earlier: seq<Json>, used: seq<Op>) | ForeignWrite(content: Option<Text>)

  datatype State = State(file: Option<Text>, lock: Option<Pid>, procs: map<Pid, Proc>, history: seq<Write>)

  datatype Event =
    | Acquire(p: Pid)
    | GiveUp(p: Pid)
    | Snapshot(p: Pid)
    | Recheck(p: Pid)
    | Replace(p: Pid)
    | Audit(p: Pid)
    | Release(p: Pid)
    | Kill(p: Pid)
    | Intrude(content: Option<Text>)

  function Parse(text: Text): Option<Json> {
    match text
    case Canonical(t) => Some(t)
    case Authored(_, parsed) => parsed
  }

  /** The tree an editor starts from; None is a refusal. */
  function TreeOf(file: Option<Text>, createIfMissing: bool): (tree: Option<Json>)
    ensures tree.Some? ==> tree.value.Dict?
  {
    match file
    case None => if createIfMissing then Some(Dict(map[])) else None
    case Some(text) =>
      var parsed := Parse(text);
      if parsed.Some? && parsed.value.Dict? then parsed else None
  }

  function FailureOf(e: EditError): Failure {
    match e
    case Refused => Failure.Refused
    case BadSpec => Failure.BadSpec
    case Crashed => Failure.Crashed
  }

  /** Read, apply, verify, serialize, stage and re-verify: everything before the target is looked at
      again. Serializing is canonical, so the staged text parses back to the new tree. */
  function Prepare(job: Job, values: Values, earlier: seq<Json>, file: Option<Text>, mentions: Mentions): (phase: Phase)
    requires |values.objs| == |job.ops|
    ensures (phase.Releasing? && phase.outcome != Success(true)) || phase.Staged?
    ensures phase != Releasing(Failed(ConcurrentModification))
  {
    var tree := TreeOf(file, job.createIfMissing);
    if tree.None? then Releasing(Failed(Failure.Refused))
    else
      var run := Attempt(tree.value, job.ops, values, mentions);
      if run.Err? then Releasing(Failed(FailureOf(run.error)))
      else if !run.value.changed then Releasing(Success(false))
      else
        var next, held := Dict(ShowKids(run.value.kids)), Current(job.ops, run.value.objs);
        if !Verified(tree.value, next, held, mentions) then Releasing(Failed(VerifyFailed))
        else Staged(Draft(earlier, file, next, Used(tree.value, job.ops, values, mentions), held))
  }

  /** The process after that: its attempt, if it did not fail, leaves other values and one more edited tree. */
  function Prepared(job: Job, proc: Proc, file: Option<Text>, mentions: Mentions): (after: Proc)
    requires |proc.values.objs| == |job.ops|
    ensures |after.values.objs| == |job.ops|
  {
    var phase, tree := Prepare(job, proc.values, proc.edited, file, mentions), TreeOf(file, job.createIfMissing);
    if tree.None? then proc.(phase := phase)
    else
      var run := Attempt(tree.value, job.ops, proc.values, mentions);
      if run.Err? then proc.(phase := phase)
      else Proc(phase, proc.attempts, After(proc.values, job.ops, run.value.objs), proc.edited + [tree.value])
  }

  /** The post-commit audit: the phase it leads to, and the file it leaves behind. */
  function AuditResult(job: Job, d: Draft, file: Option<Text>, mentions: Mentions): (Phase, Option<Text>) {
    var tree := TreeOf(d.raw, job.createIfMissing);
    if file.None? || Parse(file.value).None? || tree.None? then (Releasing(Failed(Failure.Crashed)), file)
    else if Verified(tree.value, Parse(file.value).value, d.held, mentions) then (Releasing(Success(true)), file)
    else (Releasing(Failed(VerifyFailed)), if job.backup && d.raw.Some? then d.raw else file)
  }

  /** Every process works through its own job. */
  predicate Staffed(jobs: map<Pid, Job>, s: State) {
    jobs.Keys == s.procs.Keys && forall p :: p in s.procs ==> |s.procs[p].values.objs| == |jobs[p].ops|
  }

  function Move(s: State, p: Pid, phase: Phase): State
    requires p in s.procs
  {
    s.(procs := s.procs[p := s.procs[p].(phase := phase)])
  }

  /** No process stands between its last look at the target and its audit. */
  predicate Quiescent(s: State) {
    forall p :: p in s.procs ==> !s.procs[p].phase.Rechecked? && !s.procs[p].phase.Replaced?
  }

  predicate Enabled(s: State, ev: Event) {
    if ev.Intrude? then Quiescent(s)
    else
      && ev.p in s.procs
      && var phase := s.procs[ev.p].phase;
         match ev
         case Acquire(_) => phase.Waiting? && s.lock.None?
         case GiveUp(_) => phase.Waiting? && s.lock.Some?
         case Snapshot(_) => phase.Holding?
         case Recheck(_) => phase.Staged?
         case Replace(_) => phase.Rechecked?
         case Audit(_) => phase.Replaced?
         case Release(_) => phase.Releasing?
         case Kill(_) => !phase.Finished? && !phase.Killed?
  }

  function Effect(jobs: map<Pid, Job>, s: State, ev: Event, mentions: Mentions): (s': State)
    requires Staffed(jobs, s) && Enabled(s, ev)
    ensures Staffed(jobs, s')
  {
    match ev
    case Intrude(content) => s.(file := content, history := s.history + [ForeignWrite(content)])
    case Acquire(p) => Move(s, p, Holding).(lock := Some(p))
    case GiveUp(p) => Move(s, p, Finished(Failed(LockTimeout)))
    case Snapshot(p) =>
      s.(procs := s.procs[p := Prepared(jobs[p], s.procs[p], s.file, mentions)])
    case Recheck(p) =>
      var d := s.procs[p].phase.draft;
      if s.file == d.raw then Move(s, p, Rechecked(d)) else Move(s, p, Releasing(Failed(ConcurrentModification)))
    case Replace(p) =>
      var d := s.procs[p].phase.draft;
      Move(s, p, Replaced(d)).(file := Some(Canonical(d.next)), history := s.history + [Commit(p, d.earlier, d.used)])
    case Audit(p) =>
      var (phase, file) := AuditResult(jobs[p], s.procs[p].phase.draft, s.file, mentions);
      Move(s, p, phase).(file := file)
    case Release(p) =>
      var proc := s.procs[p];
      if proc.phase.outcome == Failed(ConcurrentModification) && proc.attempts < jobs[p].MaxAttempts() then
        s.(lock := None, procs := s.procs[p := Proc(Waiting, proc.attempts + 1, proc.values, proc.edited)])
      else Move(s, p, Finished(proc.phase.outcome)).(lock := None)
    case Kill(p) => Move(s, p, Killed)
  }

  /** One step of the system; None when the event cannot happen in `s`. */
  function Step(jobs: map<Pid, Job>, s: State, ev: Event, mentions: Mentions): (r: Option<State>)
    requires Staffed(jobs, s)
    ensures r.Some? ==> Staffed(jobs, r.value)
  {
    if Enabled(s, ev) then Some(Effect(jobs, s, ev, mentions)) else None
  }

  predicate Initial(jobs: map<Pid, Job>, s: State) {
    && Staffed(jobs, s)
    && s.lock == None && s.history == []
    && forall p :: p in s.procs ==> s.procs[p] == Proc(Waiting, 1, Declared(jobs[p].ops), [])
  }

  /** The state after a whole sequence of events, if each of them can happen. */
  function Run(jobs: map<Pid, Job>, s: State, events: seq<Event>, mentions: Mentions): (r: Option<State>)
    requires Staffed(jobs, s)
    ensures r.Some? ==> Staffed(jobs, r.value)
  {
    if events == [] then Some(s)
    else
      var before := Run(jobs, s, events[..|events| - 1], mentions);
      if before.None? then None else Step(jobs, before.value, events[|events| - 1], mentions)
  }

  // ---- What the history says the file is ----

  /** A commit names a job, and earlier attempts of it that succeeded within its budget. */
  predicate Faithful(jobs: map<Pid, Job>, w: Write, mentions: Mentions) {
    w.Commit? ==>
      && w.pid in jobs && |w.earlier| < jobs[w.pid].MaxAttempts()
      && AfterAttempts(w.earlier, jobs[w.pid].ops, mentions).Some?
  }

  predicate AllFaithful(jobs: map<Pid, Job>, history: seq<Write>, mentions: Mentions) {
    forall i :: 0 <= i < |history| ==> Faithful(jobs, history[i], mentions)
  }

  /**
   * The file after one write. A commit leaves what its process's attempt makes of the content it overwrites, with the
   * values as attempts on the earlier trees leave them; None when that is no change, or not what the commit recorded.
   */
  function Rewrite(jobs: map<Pid, Job>, file: Option<Text>, w: Write, mentions: Mentions): Option<Option<Text>>
    requires Faithful(jobs, w, mentions)
  {
    match w
    case ForeignWrite(content) => Some(content)
    case Commit(p, earlier, used) =>
      var tree, values := TreeOf(file, jobs[p].createIfMissing), AfterAttempts(earlier, jobs[p].ops, mentions).value;
      if tree.None? then None
      else
        var run := Attempt(tree.value, jobs[p].ops, values, mentions);
        if run.Ok? && run.value.changed && used == Used(tree.value, jobs[p].ops, values, mentions)
        then Some(Some(Canonical(Dict(ShowKids(run.value.kids)))))
        else None
  }

  /** The history replayed from the initial file, every commit from exactly the content it overwrites. */
  function Replay(jobs: map<Pid, Job>, initial: Option<Text>, history: seq<Write>,
                  mentions: Mentions): Option<Option<Text>>
    requires AllFaithful(jobs, history, mentions)
  {
    if history == [] then Some(initial)
    else
      var before := Replay(jobs, initial, history[..|history| - 1], mentions);
      if before.None? then None else Rewrite(jobs, before.value, history[|history| - 1], mentions)
  }

  predicate CommitOf(w: Write, p: Pid) {
    w.Commit? && w.pid == p
  }

  function Commits(history: seq<Write>, p: Pid): nat {
    if history == [] then 0
    else Commits(history[..|history| - 1], p) + if CommitOf(history[|history| - 1], p) then 1 else 0
  }

  // ---- The invariant ----

  /** A draft is what an attempt on its snapshot stages after the earlier ones. */
  predicate DraftInv(job: Job, d: Draft, mentions: Mentions) {
    var values := AfterAttempts(d.earlier, job.ops, mentions);
    && |d.earlier| < job.MaxAttempts() && values.Some?
    && Prepare(job, values.value, d.earlier, d.raw, mentions) == Staged(d)
  }

  /** The values are what attempts on the edited trees leave, at most one attempt for each that has begun. */
  predicate ValuesInv(job: Job, proc: Proc, mentions: Mentions) {
    && AfterAttempts(proc.edited, job.ops, mentions) == Some(proc.values)
    && |proc.edited| + (if proc.phase.Waiting? || proc.phase.Holding? then 1 else 0) <= proc.attempts
    && 1 <= proc.attempts <= job.MaxAttempts()
  }

  predicate Rejected(phase: Phase) {
    phase == Releasing(Failed(VerifyFailed)) || phase == Finished(Failed(VerifyFailed))
  }

  /** The diff only ever rejects operations that are not admissible on the tree they edited. */
  predicate RejectedInv(job: Job, proc: Proc) {
    Rejected(proc.phase) ==> proc.edited != [] && !Admissible(proc.edited[|proc.edited| - 1], job.ops)
  }

  /** How often a process in this phase has written the file. */
  predicate CountInv(history: seq<Write>, p: Pid, phase: Phase) {
    if phase.Killed? then Commits(history, p) <= 1
    else if phase.Replaced? || phase == Releasing(Success(true)) || phase == Finished(Success(true)) then
      Commits(history, p) == 1
    else Commits(history, p) == 0
  }

  predicate PhaseInv(job: Job, s: State, p: Pid, proc: Proc, mentions: Mentions) {
    && (proc.phase.InsideLock() ==> s.lock == Some(p))
    && (proc.phase.HasDraft() ==> DraftInv(job, proc.phase.draft, mentions))
    && (proc.phase.Rechecked? ==> s.file == proc.phase.draft.raw)
    && (proc.phase.Replaced? ==> s.file == Some(Canonical(proc.phase.draft.next)))
    && CountInv(s.history, p, proc.phase)
    && ValuesInv(job, proc, mentions) && RejectedInv(job, proc)
  }

  predicate Inv(jobs: map<Pid, Job>, initial: Option<Text>, s: State, mentions: Mentions) {
    && s.procs.Keys == jobs.Keys
    && AllFaithful(jobs, s.history, mentions)
    && Replay(jobs, initial, s.history, mentions) == Some(s.file)
    && (s.lock.Some? ==>
          && s.lock.value in s.procs
          && (s.procs[s.lock.value].phase.InsideLock() || s.procs[s.lock.value].phase.Killed?))
    && forall p :: p in s.procs ==> PhaseInv(jobs[p], s, p, s.procs[p], mentions)
  }

  lemma {:induction false} CommitsGrow(history: seq<Write>, w: Write, p: Pid)
    ensures Commits(history + [w], p) == Commits(history, p) + if CommitOf(w, p) then 1 else 0
  {
    assert (history + [w])[..|history|] == history;
  }

  lemma {:induction false} ReplayGrows(jobs: map<Pid, Job>, initial: Option<Text>, history: seq<Write>, w: Write,
                                       file: Option<Text>, mentions: Mentions)
    requires AllFaithful(jobs, history, mentions) && Faithful(jobs, w, mentions)
    requires Replay(jobs, initial, history, mentions) == Some(file)
    ensures AllFaithful(jobs, history + [w], mentions)
    ensures Replay(jobs, initial, history + [w], mentions) == Rewrite(jobs, file, w, mentions)
  {
    assert (history + [w])[..|history|] == history;
  }

  lemma {:induction false} CurrentShape(ops: seq<Op>, objs: seq<Obj>)
    requires |objs| == |ops|
    ensures SameShape(Current(ops, objs), ops)
  {}

  /** What is staged is a verified edit of the snapshot, by operations of the declared kinds and paths, and by the
      declared ones on a first attempt and whenever no operation reaches into a value set before it. */
  lemma {:induction false} DraftIsEdit(job: Job, d: Draft, mentions: Mentions)
    requires DraftInv(job, d, mentions)
    ensures var tree := TreeOf(d.raw, job.createIfMissing);
            && tree.Some? && ApplyAll(tree.value, d.used, mentions) == Ok((d.next, true))
            && Verified(tree.value, d.next, d.held, mentions)
            && SameShape(d.used, job.ops) && SameShape(d.held, job.ops)
            && (d.earlier == [] || Apart(job.ops) ==> d.used == job.ops)
            && (Apart(job.ops) ==> d.held == job.ops)
  {
    var tree, values := TreeOf(d.raw, job.createIfMissing).value, AfterAttempts(d.earlier, job.ops, mentions).value;
    AttemptsProper(d.earlier, job.ops, mentions);
    AttemptIsUsed(tree, job.ops, values, mentions);
    CurrentShape(job.ops, Attempt(tree, job.ops, values, mentions).value.objs);
    if d.earlier == [] || Apart(job.ops) {
      AttemptsPristine(d.earlier, job.ops, mentions);
      UsedIsDeclared(tree, job.ops, values, mentions);
    }
    if Apart(job.ops) { ApartKeepsValues(tree, job.ops, values, mentions); }
  }

  lemma AdmissibleIsApart(t: Json, ops: seq<Op>)
    requires Admissible(t, ops)
    ensures Apart(ops)
  {}

  /** Admissible operations pass the diff, on every attempt. */
  lemma {:induction false} AdmissiblePasses(job: Job, values: Values, earlier: seq<Json>, file: Option<Text>,
                                            mentions: Mentions)
    requires AfterAttempts(earlier, job.ops, mentions) == Some(values)
    requires var tree := TreeOf(file, job.createIfMissing); tree.Some? ==> Admissible(tree.value, job.ops)
    ensures Prepare(job, values, earlier, file, mentions) != Releasing(Failed(VerifyFailed))
  {
    var tree := TreeOf(file, job.createIfMissing);
    if tree.Some? && Attempt(tree.value, job.ops, values, mentions).Ok? {
      AdmissibleIsApart(tree.value, job.ops);
      AttemptsPristine(earlier, job.ops, mentions);
      FirstAttemptIsDeclared(tree.value, job.ops, values, mentions);
      ApartKeepsValues(tree.value, job.ops, values, mentions);
      AppliedOpsAccepted(tree.value, job.ops, mentions);
    }
  }

  lemma {:induction false} PreparedValues(job: Job, proc: Proc, file: Option<Text>, mentions: Mentions)
    requires ValuesInv(job, proc, mentions) && proc.phase.Holding?
    ensures ValuesInv(job, Prepared(job, proc, file, mentions), mentions)
  {
    var tree := TreeOf(file, job.createIfMissing);
    if tree.Some? && Attempt(tree.value, job.ops, proc.values, mentions).Ok? {
      OneMoreAttempt(proc.edited, tree.value, job.ops, mentions);
    }
  }

  lemma {:induction false} PreparedRejects(job: Job, proc: Proc, file: Option<Text>, mentions: Mentions)
    requires AfterAttempts(proc.edited, job.ops, mentions) == Some(proc.values)
    ensures RejectedInv(job, Prepared(job, proc, file, mentions))
  {
    var tree := TreeOf(file, job.createIfMissing);
    if tree.Some? && Admissible(tree.value, job.ops) {
      AdmissiblePasses(job, proc.values, proc.edited, file, mentions);
    }
  }

  lemma {:induction false} PreparedDraft(job: Job, proc: Proc, file: Option<Text>, mentions: Mentions)
    requires ValuesInv(job, proc, mentions) && proc.phase.Holding?
    ensures var phase := Prepared(job, proc, file, mentions).phase;
            && (phase.Staged? || (phase.Releasing? && phase.outcome != Success(true)))
            && (phase.Staged? ==> DraftInv(job, phase.draft, mentions))
  {}

  /** With nobody else writing, the audit always passes and the backup is never restored. */
  lemma AuditPasses(job: Job, d: Draft, mentions: Mentions)
    requires DraftInv(job, d, mentions)
    ensures AuditResult(job, d, Some(Canonical(d.next)), mentions)
            == (Releasing(Success(true)), Some(Canonical(d.next)))
  {}

  /** The recorded commit of a draft replays to what the draft holds. */
  lemma DraftReplays(jobs: map<Pid, Job>, p: Pid, d: Draft, mentions: Mentions)
    requires p in jobs && DraftInv(jobs[p], d, mentions)
    ensures Faithful(jobs, Commit(p, d.earlier, d.used), mentions)
    ensures Rewrite(jobs, d.raw, Commit(p, d.earlier, d.used), mentions) == Some(Some(Canonical(d.next)))
  {}

  // ---- Every step keeps it ----

  /** A step of `p` that leaves file and history alone only has to establish its own invariant. */
  lemma {:induction false} OwnStepKeepsInv(jobs: map<Pid, Job>, initial: Option<Text>, s: State, s': State, p: Pid,
                                           mentions: Mentions)
    requires Inv(jobs, initial, s, mentions) && p in jobs
    requires s'.procs.Keys == s.procs.Keys && s'.file == s.file && s'.history == s.history
    requires forall q :: q in s.procs && q != p ==> s'.procs[q] == s.procs[q]
    requires s'.lock == s.lock || s.lock.None? || s.procs[p].phase.InsideLock()
    requires s'.lock == s.lock || s'.lock == None || s'.lock == Some(p)
    requires s'.lock == Some(p) ==> s'.procs[p].phase.InsideLock() || s'.procs[p].phase.Killed?
    requires PhaseInv(jobs[p], s', p, s'.procs[p], mentions)
    ensures Inv(jobs, initial, s', mentions)
  {
    forall q | q in s'.procs ensures PhaseInv(jobs[q], s', q, s'.procs[q], mentions) {
      assert PhaseInv(jobs[q], s, q, s.procs[q], mentions);
    }
  }

  /** A write keeps the invariant of every process that is not between its last look and its audit. */
  lemma {:induction false} WriteKeepsOthers(job: Job, s: State, s': State, q: Pid, w: Write, mentions: Mentions)
    requires q in s.procs && PhaseInv(job, s, q, s.procs[q], mentions)
    requires s'.lock == s.lock && s'.history == s.history + [w] && !CommitOf(w, q)
    requires !s.procs[q].phase.Rechecked? && !s.procs[q].phase.Replaced?
    ensures PhaseInv(job, s', q, s.procs[q], mentions)
  {
    CommitsGrow(s.history, w, q);
  }

  lemma {:induction false} IntrudeKeepsPhase(jobs: map<Pid, Job>, initial: Option<Text>, s: State,
                                             content: Option<Text>, q: Pid, mentions: Mentions)
    requires Staffed(jobs, s) && Inv(jobs, initial, s, mentions) && Enabled(s, Intrude(content)) && q in s.procs
    ensures PhaseInv(jobs[q], Effect(jobs, s, Intrude(content), mentions), q, s.procs[q], mentions)
  {
    WriteKeepsOthers(jobs[q], s, Effect(jobs, s, Intrude(content), mentions), q, ForeignWrite(content), mentions);
  }

  lemma {:induction false} IntrudeKeepsInv(jobs: map<Pid, Job>, initial: Option<Text>, s: State, content: Option<Text>,
                                           mentions: Mentions)
    requires Staffed(jobs, s) && Inv(jobs, initial, s, mentions) && Enabled(s, Intrude(content))
    ensures Inv(jobs, initial, Effect(jobs, s, Intrude(content), mentions), mentions)
  {
    ReplayGrows(jobs, initial, s.history, ForeignWrite(content), s.file, mentions);
    forall q | q in s.procs
      ensures PhaseInv(jobs[q], Effect(jobs, s, Intrude(content), mentions), q, s.procs[q], mentions)
    {
      IntrudeKeepsPhase(jobs, initial, s, content, q, mentions);
    }
  }

  lemma {:induction false} ReplaceKeepsOwn(job: Job, s: State, s': State, p: Pid, proc: Proc, w: Write,
                                           mentions: Mentions)
    requires proc.phase.Rechecked? && PhaseInv(job, s, p, proc, mentions) && CommitOf(w, p)
    requires s'.lock == s.lock && s'.file == Some(Canonical(proc.phase.draft.next)) && s'.history == s.history + [w]
    ensures PhaseInv(job, s', p, proc.(phase := Replaced(proc.phase.draft)), mentions)
  {
    CommitsGrow(s.history, w, p);
  }

  lemma {:induction false} ReplaceKeepsPhase(jobs: map<Pid, Job>, initial: Option<Text>, s: State, p: Pid, q: Pid,
                                             mentions: Mentions)
    requires Staffed(jobs, s) && Inv(jobs, initial, s, mentions) && Enabled(s, Replace(p)) && q in s.procs
    ensures var s' := Effect(jobs, s, Replace(p), mentions);
            PhaseInv(jobs[q], s', q, s'.procs[q], mentions)
  {
    var s', w :=
      Effect(jobs, s, Replace(p), mentions), Commit(p, s.procs[p].phase.draft.earlier, s.procs[p].phase.draft.used);
    assert PhaseInv(jobs[q], s, q, s.procs[q], mentions);
    if q == p {
      ReplaceKeepsOwn(jobs[p], s, s', p, s.procs[p], w, mentions);
    } else {
      assert PhaseInv(jobs[p], s, p, s.procs[p], mentions);
      WriteKeepsOthers(jobs[q], s, s', q, w, mentions);
    }
  }

  lemma {:induction false} ReplaceKeepsInv(jobs: map<Pid, Job>, initial: Option<Text>, s: State, p: Pid,
                                           mentions: Mentions)
    requires Staffed(jobs, s) && Inv(jobs, initial, s, mentions) && Enabled(s, Replace(p))
    ensures Inv(jobs, initial, Effect(jobs, s, Replace(p), mentions), mentions)
  {
    assert PhaseInv(jobs[p], s, p, s.procs[p], mentions);
    DraftReplays(jobs, p, s.procs[p].phase.draft, mentions);
    ReplayGrows(
      jobs, initial, s.history, Commit(p, s.procs[p].phase.draft.earlier, s.procs[p].phase.draft.used), s.file,
      mentions);
    forall q | q in s.procs
      ensures var s' := Effect(jobs, s, Replace(p), mentions); PhaseInv(jobs[q], s', q, s'.procs[q], mentions)
    {
      ReplaceKeepsPhase(jobs, initial, s, p, q, mentions);
    }
  }

  lemma {:induction false} SnapshotKeepsOwn(job: Job, s: State, s': State, p: Pid, proc: Proc, mentions: Mentions)
    requires proc.phase.Holding? && PhaseInv(job, s, p, proc, mentions)
    requires s'.lock == s.lock && s'.history == s.history
    ensures PhaseInv(job, s', p, Prepared(job, proc, s.file, mentions), mentions)
  {
    PreparedDraft(job, proc, s.file, mentions);
    PreparedValues(job, proc, s.file, mentions);
    PreparedRejects(job, proc, s.file, mentions);
  }

  lemma {:induction false} SnapshotKeepsInv(jobs: map<Pid, Job>, initial: Option<Text>, s: State, p: Pid,
                                            mentions: Mentions)
    requires Staffed(jobs, s) && Inv(jobs, initial, s, mentions) && Step(jobs, s, Snapshot(p), mentions).Some?
    ensures Inv(jobs, initial, Step(jobs, s, Snapshot(p), mentions).value, mentions)
  {
    var s' := Step(jobs, s, Snapshot(p), mentions).value;
    assert PhaseInv(jobs[p], s, p, s.procs[p], mentions);
    SnapshotKeepsOwn(jobs[p], s, s', p, s.procs[p], mentions);
    PreparedDraft(jobs[p], s.procs[p], s.file, mentions);
    OwnStepKeepsInv(jobs, initial, s, s', p, mentions);
  }

  lemma {:induction false} AuditKeepsInv(jobs: map<Pid, Job>, initial: Option<Text>, s: State, p: Pid,
                                         mentions: Mentions)
    requires Staffed(jobs, s) && Inv(jobs, initial, s, mentions) && Step(jobs, s, Audit(p), mentions).Some?
    ensures Inv(jobs, initial, Step(jobs, s, Audit(p), mentions).value, mentions)
    ensures Step(jobs, s, Audit(p), mentions) == Some(Move(s, p, Releasing(Success(true))))
  {
    var s' := Step(jobs, s, Audit(p), mentions).value;
    assert PhaseInv(jobs[p], s, p, s.procs[p], mentions);
    AuditPasses(jobs[p], s.procs[p].phase.draft, mentions);
    OwnStepKeepsInv(jobs, initial, s, s', p, mentions);
  }

  lemma {:induction false} AcquireKeepsInv(jobs: map<Pid, Job>, initial: Option<Text>, s: State, p: Pid,
                                           mentions: Mentions)
    requires Staffed(jobs, s) && Inv(jobs, initial, s, mentions) && Step(jobs, s, Acquire(p), mentions).Some?
    ensures Inv(jobs, initial, Step(jobs, s, Acquire(p), mentions).value, mentions)
  {
    var s' := Step(jobs, s, Acquire(p), mentions).value;
    assert PhaseInv(jobs[p], s, p, s.procs[p], mentions);
    OwnStepKeepsInv(jobs, initial, s, s', p, mentions);
  }

  lemma {:induction false} GiveUpKeepsInv(jobs: map<Pid, Job>, initial: Option<Text>, s: State, p: Pid,
                                          mentions: Mentions)
    requires Staffed(jobs, s) && Inv(jobs, initial, s, mentions) && Step(jobs, s, GiveUp(p), mentions).Some?
    ensures Inv(jobs, initial, Step(jobs, s, GiveUp(p), mentions).value, mentions)
  {
    var s' := Step(jobs, s, GiveUp(p), mentions).value;
    assert PhaseInv(jobs[p], s, p, s.procs[p], mentions);
    OwnStepKeepsInv(jobs, initial, s, s', p, mentions);
  }

  lemma {:induction false} KillKeepsOwn(jobs: map<Pid, Job>, s: State, p: Pid, mentions: Mentions)
    requires Staffed(jobs, s) && p in jobs && PhaseInv(jobs[p], s, p, s.procs[p], mentions)
    ensures var s' := Move(s, p, Killed); PhaseInv(jobs[p], s', p, s'.procs[p], mentions)
  {}

  lemma {:induction false} KillKeepsInv(jobs: map<Pid, Job>, initial: Option<Text>, s: State, p: Pid,
                                        mentions: Mentions)
    requires Staffed(jobs, s) && Inv(jobs, initial, s, mentions) && Step(jobs, s, Kill(p), mentions).Some?
    ensures Inv(jobs, initial, Step(jobs, s, Kill(p), mentions).value, mentions)
  {
    var s' := Step(jobs, s, Kill(p), mentions).value;
    assert PhaseInv(jobs[p], s, p, s.procs[p], mentions);
    KillKeepsOwn(jobs, s, p, mentions);
    OwnStepKeepsInv(jobs, initial, s, s', p, mentions);
  }

  lemma {:induction false} RecheckKeepsInv(jobs: map<Pid, Job>, initial: Option<Text>, s: State, p: Pid,
                                           mentions: Mentions)
    requires Staffed(jobs, s) && Inv(jobs, initial, s, mentions) && Step(jobs, s, Recheck(p), mentions).Some?
    ensures Inv(jobs, initial, Step(jobs, s, Recheck(p), mentions).value, mentions)
  {
    var s' := Step(jobs, s, Recheck(p), mentions).value;
    assert PhaseInv(jobs[p], s, p, s.procs[p], mentions);
    OwnStepKeepsInv(jobs, initial, s, s', p, mentions);
  }

  lemma {:induction false} ReleaseKeepsOwn(jobs: map<Pid, Job>, s: State, p: Pid, mentions: Mentions)
    requires Staffed(jobs, s) && p in jobs && PhaseInv(jobs[p], s, p, s.procs[p], mentions) && Enabled(s, Release(p))
    ensures var s' := Effect(jobs, s, Release(p), mentions); PhaseInv(jobs[p], s', p, s'.procs[p], mentions)
  {}

  lemma {:induction false} ReleaseKeepsInv(jobs: map<Pid, Job>, initial: Option<Text>, s: State, p: Pid,
                                           mentions: Mentions)
    requires Staffed(jobs, s) && Inv(jobs, initial, s, mentions) && Step(jobs, s, Release(p), mentions).Some?
    ensures Inv(jobs, initial, Step(jobs, s, Release(p), mentions).value, mentions)
  {
    var s' := Step(jobs, s, Release(p), mentions).value;
    assert PhaseInv(jobs[p], s, p, s.procs[p], mentions);
    ReleaseKeepsOwn(jobs, s, p, mentions);
    OwnStepKeepsInv(jobs, initial, s, s', p, mentions);
  }

  lemma StepKeepsInv(jobs: map<Pid, Job>, initial: Option<Text>, s: State, ev: Event, mentions: Mentions)
    requires Staffed(jobs, s) && Inv(jobs, initial, s, mentions) && Step(jobs, s, ev, mentions).Some?
    ensures Inv(jobs, initial, Step(jobs, s, ev, mentions).value, mentions)
  {
    match ev
    case Intrude(content) => IntrudeKeepsInv(jobs, initial, s, content, mentions);
    case Replace(p) => ReplaceKeepsInv(jobs, initial, s, p, mentions);
    case Snapshot(p) => SnapshotKeepsInv(jobs, initial, s, p, mentions);
    case Audit(p) => AuditKeepsInv(jobs, initial, s, p, mentions);
    case Recheck(p) => RecheckKeepsInv(jobs, initial, s, p, mentions);
    case Release(p) => ReleaseKeepsInv(jobs, initial, s, p, mentions);
    case Acquire(p) => AcquireKeepsInv(jobs, initial, s, p, mentions);
    case GiveUp(p) => GiveUpKeepsInv(jobs, initial, s, p, mentions);
    case Kill(p) => KillKeepsInv(jobs, initial, s, p, mentions);
  }

  lemma {:induction false} InitialInv(jobs: map<Pid, Job>, s: State, mentions: Mentions)
    requires Initial(jobs, s)
    ensures Inv(jobs, s.file, s, mentions)
  {
    forall p | p in s.procs ensures PhaseInv(jobs[p], s, p, s.procs[p], mentions) {}
  }

  lemma {:induction false} RunKeepsInv(jobs: map<Pid, Job>, s: State, events: seq<Event>, mentions: Mentions)
    requires Initial(jobs, s) && Run(jobs, s, events, mentions).Some?
    ensures Inv(jobs, s.file, Run(jobs, s, events, mentions).value, mentions)
  {
    if events == [] {
      InitialInv(jobs, s, mentions);
    } else {
      RunKeepsInv(jobs, s, events[..|events| - 1], mentions);
      StepKeepsInv(jobs, s.file, Run(jobs, s, events[..|events| - 1], mentions).value, events[|events| - 1], mentions);
    }
  }
}
