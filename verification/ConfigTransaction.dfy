/** What holds in every run of concurrent config transactions. */
module ConfigTransaction {
  import opened Wrappers
  import opened JsonTree
  import opened ConfigEdit
  import opened ConfigDiffTheorems
  import opened ConfigApplyTheorems
  import opened ConfigEffects
  import opened ConfigSharing
  import opened ConfigSharingTheorems
  import opened ConfigRetry
  import opened ConfigProtocol

  /**
   * The file is always the initial content with the writes of the history replayed in order. Every commit in it is what
   * its process's operations make of exactly the content it overwrote, with their values as the process's earlier
   * attempts left them.
   */
  lemma {:induction false} FileIsReplayOfHistory(jobs: map<Pid, Job>, s: State, events: seq<Event>, mentions: Mentions)
    requires Initial(jobs, s) && Run(jobs, s, events, mentions).Some?
    ensures var end := Run(jobs, s, events, mentions).value;
            AllFaithful(jobs, end.history, mentions) && Replay(jobs, s.file, end.history, mentions) == Some(end.file)
  {
    RunKeepsInv(jobs, s, events, mentions);
  }

  /** At the end of `events` the file holds `t`. */
  predicate Holds(jobs: map<Pid, Job>, s: State, events: seq<Event>, createIfMissing: bool, t: Json, mentions: Mentions)
    requires Staffed(jobs, s)
  {
    var end := Run(jobs, s, events, mentions);
    end.Some? && TreeOf(end.value.file, createIfMissing) == Some(t)
  }

  predicate HeldOnce(jobs: map<Pid, Job>, s: State, events: seq<Event>, createIfMissing: bool, t: Json,
                     mentions: Mentions)
    requires Staffed(jobs, s)
  {
    exists k :: 0 <= k <= |events| && Holds(jobs, s, events[..k], createIfMissing, t, mentions)
  }

  lemma {:induction false} HeldLater(jobs: map<Pid, Job>, s: State, events: seq<Event>, createIfMissing: bool, t: Json,
                                     mentions: Mentions)
    requires Staffed(jobs, s) && events != []
    requires var init := events[..|events| - 1];
             HeldOnce(jobs, s, init, createIfMissing, t, mentions) || Holds(jobs, s, init, createIfMissing, t, mentions)
    ensures HeldOnce(jobs, s, events, createIfMissing, t, mentions)
  {
    var init := events[..|events| - 1];
    assert events[..|init|] == init;
    if HeldOnce(jobs, s, init, createIfMissing, t, mentions) {
      var k :| 0 <= k <= |init| && Holds(jobs, s, init[..k], createIfMissing, t, mentions);
      assert init[..k] == events[..k];
    }
  }

  /** The process has edited `t`, or its draft builds on an attempt that did. */
  predicate Knows(proc: Proc, t: Json) {
    t in proc.edited || (proc.phase.HasDraft() && t in proc.phase.draft.earlier)
  }

  lemma {:induction false} PreparedKnows(job: Job, proc: Proc, file: Option<Text>, mentions: Mentions, t: Json)
    requires |proc.values.objs| == |job.ops| && Knows(Prepared(job, proc, file, mentions), t)
    ensures Knows(proc, t) || TreeOf(file, job.createIfMissing) == Some(t)
  {}

  lemma {:induction false} StepKnows(jobs: map<Pid, Job>, s: State, ev: Event, mentions: Mentions, p: Pid, t: Json)
    requires Staffed(jobs, s) && Enabled(s, ev) && p in jobs && Knows(Effect(jobs, s, ev, mentions).procs[p], t)
    ensures Knows(s.procs[p], t) || TreeOf(s.file, jobs[p].createIfMissing) == Some(t)
  {
    if ev == Snapshot(p) {
      PreparedKnows(jobs[p], s.procs[p], s.file, mentions, t);
    } else {
      var proc, after := s.procs[p], Effect(jobs, s, ev, mentions).procs[p];
      assert after.edited == proc.edited;
      assert after.phase.HasDraft() ==> proc.phase.HasDraft() && after.phase.draft == proc.phase.draft;
    }
  }

  /** The trees a process has edited, and those its draft builds on, were all in the file. */
  lemma {:induction false} EditedWasHeld(jobs: map<Pid, Job>, s: State, events: seq<Event>, mentions: Mentions, p: Pid,
                                         t: Json)
    requires Initial(jobs, s) && Run(jobs, s, events, mentions).Some? && p in jobs
    requires Knows(Run(jobs, s, events, mentions).value.procs[p], t)
    ensures HeldOnce(jobs, s, events, jobs[p].createIfMissing, t, mentions)
  {
    if events != [] {
      var init := events[..|events| - 1];
      var before := Run(jobs, s, init, mentions).value;
      StepKnows(jobs, before, events[|events| - 1], mentions, p, t);
      if Knows(before.procs[p], t) { EditedWasHeld(jobs, s, init, mentions, p, t); }
      HeldLater(jobs, s, events, jobs[p].createIfMissing, t, mentions);
    }
  }

  /** What the history records as edited before a commit was indeed in the file at some moment of the run. */
  lemma {:induction false} EarlierWasHeld(jobs: map<Pid, Job>, s: State, events: seq<Event>, mentions: Mentions,
                                          i: nat, t: Json)
    requires Initial(jobs, s) && Run(jobs, s, events, mentions).Some?
    requires var history := Run(jobs, s, events, mentions).value.history;
             i < |history| && history[i].Commit? && t in history[i].earlier
    ensures var w := Run(jobs, s, events, mentions).value.history[i];
            w.pid in jobs && HeldOnce(jobs, s, events, jobs[w.pid].createIfMissing, t, mentions)
  {
    if events != [] {
      var init, ev := events[..|events| - 1], events[|events| - 1];
      var before, w := Run(jobs, s, init, mentions).value, Run(jobs, s, events, mentions).value.history[i];
      if i < |before.history| {
        EarlierWasHeld(jobs, s, init, mentions, i, t);
      } else {
        EditedWasHeld(jobs, s, init, mentions, w.pid, t);
      }
      HeldLater(jobs, s, events, jobs[w.pid].createIfMissing, t, mentions);
    }
  }

  /** At most one process is between acquiring and releasing the lock. */
  lemma {:induction false} MutualExclusion(jobs: map<Pid, Job>, s: State, events: seq<Event>, mentions: Mentions,
                                           p: Pid, q: Pid)
    requires Initial(jobs, s) && Run(jobs, s, events, mentions).Some? && p in jobs && q in jobs
    ensures var end := Run(jobs, s, events, mentions).value;
            end.procs[p].phase.InsideLock() && end.procs[q].phase.InsideLock() ==> p == q
  {
    RunKeepsInv(jobs, s, events, mentions);
    var end := Run(jobs, s, events, mentions).value;
    assert PhaseInv(jobs[p], end, p, end.procs[p], mentions);
    assert PhaseInv(jobs[q], end, q, end.procs[q], mentions);
  }

  /** A finished process wrote the file once if it reported a change, and never otherwise; a cancelled
      transaction therefore contributes nothing. */
  lemma {:induction false} CommittedExactlyOnce(jobs: map<Pid, Job>, s: State, events: seq<Event>, mentions: Mentions,
                                                p: Pid)
    requires Initial(jobs, s) && Run(jobs, s, events, mentions).Some? && p in jobs
    ensures var end := Run(jobs, s, events, mentions).value;
            end.procs[p].phase.Finished? ==>
              Commits(end.history, p) == if end.procs[p].phase.result == Success(true) then 1 else 0
    ensures Run(jobs, s, events, mentions).value.procs[p].attempts <= jobs[p].MaxAttempts()
  {
    RunKeepsInv(jobs, s, events, mentions);
    var end := Run(jobs, s, events, mentions).value;
    assert PhaseInv(jobs[p], end, p, end.procs[p], mentions);
  }

  lemma DraftIsRetry(job: Job, d: Draft, mentions: Mentions)
    requires DraftInv(job, d, mentions)
    ensures Retry(d.earlier, TreeOf(d.raw, job.createIfMissing).value, job.ops, mentions) == Some(d.next)
  {}

  lemma {:induction false} ReplaceWrites(jobs: map<Pid, Job>, s: State, p: Pid, mentions: Mentions)
    requires Staffed(jobs, s) && Enabled(s, Replace(p)) && p in jobs && PhaseInv(jobs[p], s, p, s.procs[p], mentions)
    ensures var d, after := s.procs[p].phase.draft, Effect(jobs, s, Replace(p), mentions);
            && s.file == d.raw && DraftInv(jobs[p], d, mentions) && after.file == Some(Canonical(d.next))
            && after.history == s.history + [Commit(p, d.earlier, d.used)]
  {}

  /** The commit step replaces the content it finds by an edit of that same content, which passed the structural diff
      against the values the operations then held; declared and held values are the same where those last. */
  lemma {:induction false} CommitEditsWhatItOverwrites(jobs: map<Pid, Job>, s: State, events: seq<Event>,
                                                       mentions: Mentions, p: Pid)
    returns (earlier: seq<Json>, used: seq<Op>, held: seq<Op>)
    requires Initial(jobs, s) && Run(jobs, s, events, mentions).Some? && p in jobs
    requires Step(jobs, Run(jobs, s, events, mentions).value, Replace(p), mentions).Some?
    ensures var before := Run(jobs, s, events, mentions).value;
            var after := Step(jobs, before, Replace(p), mentions).value;
            var tree := TreeOf(before.file, jobs[p].createIfMissing);
            && after.history == before.history + [Commit(p, earlier, used)]
            && tree.Some? && ApplyAll(tree.value, used, mentions).Ok?
            && after.file == Some(Canonical(ApplyAll(tree.value, used, mentions).value.0))
            && Retry(earlier, tree.value, jobs[p].ops, mentions) == Some(ApplyAll(tree.value, used, mentions).value.0)
            && Verified(tree.value, ApplyAll(tree.value, used, mentions).value.0, held, mentions)
            && SameShape(used, jobs[p].ops) && SameShape(held, jobs[p].ops)
            && (earlier == [] || Apart(jobs[p].ops) ==> used == jobs[p].ops)
            && (Apart(jobs[p].ops) ==> held == jobs[p].ops)
  {
    RunKeepsInv(jobs, s, events, mentions);
    var before := Run(jobs, s, events, mentions).value;
    assert PhaseInv(jobs[p], before, p, before.procs[p], mentions);
    ReplaceWrites(jobs, before, p, mentions);
    var d := before.procs[p].phase.draft;
    earlier, used, held := d.earlier, d.used, d.held;
    DraftIsEdit(jobs[p], d, mentions);
    DraftIsRetry(jobs[p], d, mentions);
  }

  /** An editor whose operations are admissible on every content it edits never ends in a failed verification. */
  lemma {:induction false} AdmissibleNeverRejected(jobs: map<Pid, Job>, s: State, events: seq<Event>,
                                                   mentions: Mentions, p: Pid)
    requires Initial(jobs, s) && Run(jobs, s, events, mentions).Some? && p in jobs
    requires forall t :: t in Run(jobs, s, events, mentions).value.procs[p].edited ==> Admissible(t, jobs[p].ops)
    ensures !Rejected(Run(jobs, s, events, mentions).value.procs[p].phase)
  {
    RunKeepsInv(jobs, s, events, mentions);
    var end := Run(jobs, s, events, mentions).value;
    assert PhaseInv(jobs[p], end, p, end.procs[p], mentions);
  }

  /** The post-commit audit never fails, so no backup is ever restored over somebody's content. */
  lemma {:induction false} AuditNeverRollsBack(jobs: map<Pid, Job>, s: State, events: seq<Event>, mentions: Mentions,
                                               p: Pid)
    requires Initial(jobs, s) && Run(jobs, s, events, mentions).Some?
    requires Step(jobs, Run(jobs, s, events, mentions).value, Audit(p), mentions).Some?
    ensures var before := Run(jobs, s, events, mentions).value;
            Step(jobs, before, Audit(p), mentions) == Some(Move(before, p, Releasing(Success(true))))
  {
    RunKeepsInv(jobs, s, events, mentions);
    AuditKeepsInv(jobs, s.file, Run(jobs, s, events, mentions).value, p, mentions);
  }

  /** A commit that was damaged before its audit is rolled back to what it had overwritten, if there is a backup of
      that. */
  lemma DamagedCommitIsRolledBack(jobs: map<Pid, Job>, s: State, mentions: Mentions, p: Pid)
    requires Staffed(jobs, s) && Enabled(s, Audit(p)) && s.file.Some? && Parse(s.file.value).Some?
    requires var d := s.procs[p].phase.draft;
             && TreeOf(d.raw, jobs[p].createIfMissing).Some?
             && !Verified(TreeOf(d.raw, jobs[p].createIfMissing).value, Parse(s.file.value).value, d.held, mentions)
    ensures var d, after := s.procs[p].phase.draft, Effect(jobs, s, Audit(p), mentions);
            && after.procs[p].phase == Releasing(Failed(VerifyFailed)) && after.history == s.history
            && after.file == if jobs[p].backup && d.raw.Some? then d.raw else s.file
  {}

  /** A process only gives up on concurrent changes after the declared number of attempts, of which there is at least
      one. */
  lemma {:induction false} CancelledWhenExhausted(jobs: map<Pid, Job>, s: State, events: seq<Event>, mentions: Mentions,
                                                  p: Pid)
    requires Initial(jobs, s) && Run(jobs, s, events, mentions).Some? && p in jobs
    ensures var proc := Run(jobs, s, events, mentions).value.procs[p];
            proc.phase == Finished(Failed(ConcurrentModification)) ==>
              proc.attempts == if jobs[p].retries < 1 then 1 else jobs[p].retries
  {
    CancelledAtMax(jobs, s, events, mentions, p);
  }

  predicate Cancelled(proc: Proc) {
    proc.phase == Finished(Failed(ConcurrentModification))
  }

  lemma {:induction false} StepCancels(jobs: map<Pid, Job>, s: State, ev: Event, mentions: Mentions, p: Pid)
    requires Staffed(jobs, s) && Enabled(s, ev) && p in jobs && 1 <= s.procs[p].attempts <= jobs[p].MaxAttempts()
    requires Cancelled(Effect(jobs, s, ev, mentions).procs[p])
    ensures var after := Effect(jobs, s, ev, mentions).procs[p];
            after == s.procs[p] || (after.attempts == s.procs[p].attempts == jobs[p].MaxAttempts())
  {
    if ev == Snapshot(p) { PreparedGoesOn(jobs[p], s.procs[p], s.file, mentions); }
  }

  lemma PreparedGoesOn(job: Job, proc: Proc, file: Option<Text>, mentions: Mentions)
    requires |proc.values.objs| == |job.ops|
    ensures !Prepared(job, proc, file, mentions).phase.Finished?
  {}

  lemma {:induction false} AttemptsBounded(jobs: map<Pid, Job>, s: State, events: seq<Event>, mentions: Mentions,
                                           p: Pid)
    requires Initial(jobs, s) && Run(jobs, s, events, mentions).Some? && p in jobs
    ensures 1 <= Run(jobs, s, events, mentions).value.procs[p].attempts <= jobs[p].MaxAttempts()
  {
    RunKeepsInv(jobs, s, events, mentions);
    var end := Run(jobs, s, events, mentions).value;
    assert PhaseInv(jobs[p], end, p, end.procs[p], mentions);
  }

  lemma {:induction false} CancelledAtMax(jobs: map<Pid, Job>, s: State, events: seq<Event>, mentions: Mentions, p: Pid)
    requires Initial(jobs, s) && Run(jobs, s, events, mentions).Some? && p in jobs
    ensures var proc := Run(jobs, s, events, mentions).value.procs[p];
            Cancelled(proc) ==> proc.attempts == jobs[p].MaxAttempts()
  {
    if events != [] && Cancelled(Run(jobs, s, events, mentions).value.procs[p]) {
      var init := events[..|events| - 1];
      CancelledAtMax(jobs, s, init, mentions, p);
      AttemptsBounded(jobs, s, init, mentions, p);
      StepCancels(jobs, Run(jobs, s, init, mentions).value, events[|events| - 1], mentions, p);
    }
  }

  /** How often the process found another content than its own at its last look. */
  function Overtakings(jobs: map<Pid, Job>, s: State, events: seq<Event>, mentions: Mentions, p: Pid): nat
    requires Staffed(jobs, s) && Run(jobs, s, events, mentions).Some?
  {
    if events == [] then 0
    else
      var init := events[..|events| - 1];
      Overtakings(jobs, s, init, mentions, p)
      + if FindsAnother(Run(jobs, s, init, mentions).value, events[|events| - 1], p) then 1 else 0
  }

  predicate FindsAnother(s: State, ev: Event, p: Pid) {
    ev == Recheck(p) && p in s.procs && s.procs[p].phase.Staged? && s.file != s.procs[p].phase.draft.raw
  }

  /** The process failed on a concurrent change and has not started over. */
  predicate Overtaken(proc: Proc) {
    proc.phase == Releasing(Failed(ConcurrentModification)) || proc.phase == Finished(Failed(ConcurrentModification))
  }

  /** The attempts and findings of a process add up across a step, unless it kills the process. */
  predicate Counted(before: Proc, after: Proc, finding: bool) {
    var now, was := if Overtaken(after) then 1 else 0, if Overtaken(before) then 1 else 0;
    || after.attempts + now == before.attempts + was + (if finding then 1 else 0)
    || (after.phase.Killed? && after.attempts == before.attempts && !finding)
  }

  lemma OthersStepCounts(jobs: map<Pid, Job>, s: State, ev: Event, mentions: Mentions, p: Pid)
    requires Staffed(jobs, s) && Enabled(s, ev) && p in jobs && (ev.Intrude? || ev.p != p)
    ensures Effect(jobs, s, ev, mentions).procs[p] == s.procs[p] && !FindsAnother(s, ev, p)
  {}

  lemma OwnStepCounts(jobs: map<Pid, Job>, s: State, ev: Event, mentions: Mentions, p: Pid)
    requires Staffed(jobs, s) && Enabled(s, ev) && p in jobs && !ev.Intrude? && ev.p == p && !ev.Snapshot?
    ensures Counted(s.procs[p], Effect(jobs, s, ev, mentions).procs[p], FindsAnother(s, ev, p))
  {}

  lemma {:induction false} StepCounts(jobs: map<Pid, Job>, s: State, ev: Event, mentions: Mentions, p: Pid)
    requires Staffed(jobs, s) && Enabled(s, ev) && p in jobs
    ensures Counted(s.procs[p], Effect(jobs, s, ev, mentions).procs[p], FindsAnother(s, ev, p))
  {
    if ev.Intrude? || ev.p != p {
      OthersStepCounts(jobs, s, ev, mentions, p);
    } else if ev.Snapshot? {
      PreparedStays(jobs[p], s.procs[p], s.file, mentions);
    } else {
      OwnStepCounts(jobs, s, ev, mentions, p);
    }
  }

  lemma PreparedStays(job: Job, proc: Proc, file: Option<Text>, mentions: Mentions)
    requires |proc.values.objs| == |job.ops|
    ensures var after := Prepared(job, proc, file, mentions);
            after.attempts == proc.attempts && !Overtaken(after)
  {}

  /** Every attempt after the first is due to another content found at the last look, and so is every cancellation: the
      attempts are one more than those findings, and as many as they are once the process has given up. */
  lemma {:induction false} AttemptsCountOvertakings(jobs: map<Pid, Job>, s: State, events: seq<Event>,
                                                    mentions: Mentions, p: Pid)
    requires Initial(jobs, s) && Run(jobs, s, events, mentions).Some? && p in jobs
    ensures var proc, n := Run(jobs, s, events, mentions).value.procs[p], Overtakings(jobs, s, events, mentions, p);
            && proc.attempts <= n + 1 <= proc.attempts + 1
            && (!proc.phase.Killed? ==> proc.attempts == if Overtaken(proc) then n else n + 1)
  {
    if events != [] {
      var init := events[..|events| - 1];
      AttemptsCountOvertakings(jobs, s, init, mentions, p);
      StepCounts(jobs, Run(jobs, s, init, mentions).value, events[|events| - 1], mentions, p);
      if Run(jobs, s, init, mentions).value.procs[p].phase.Killed? {
        KilledStays(jobs, Run(jobs, s, init, mentions).value, events[|events| - 1], mentions, p);
      }
    }
  }

  lemma KilledStays(jobs: map<Pid, Job>, s: State, ev: Event, mentions: Mentions, p: Pid)
    requires Staffed(jobs, s) && Enabled(s, ev) && p in jobs && s.procs[p].phase.Killed?
    ensures Effect(jobs, s, ev, mentions).procs[p] == s.procs[p] && !FindsAnother(s, ev, p)
  {}

  /** What the first look at the file leads to. */
  lemma {:induction false} FirstLook(job: Job, file: Option<Text>, mentions: Mentions)
    ensures var tree, phase := TreeOf(file, job.createIfMissing), Prepare(job, Declared(job.ops), [], file, mentions);
            && (tree.None? <==>
                  if file.None? then !job.createIfMissing
                  else Parse(file.value).None? || !Parse(file.value).value.Dict?)
            && (tree.Some? ==> tree.value == if file.None? then Dict(map[]) else Parse(file.value).value)
            && (tree.None? ==> phase == Releasing(Failed(Failure.Refused)))
            && (tree.Some? ==> var all := ApplyAll(tree.value, job.ops, mentions);
                  && (all.Err? ==> phase.Releasing? && phase.outcome.Failed?
                                   && (phase.outcome.why == Failure.Refused <==> all.error == EditError.Refused)
                                   && (phase.outcome.why == Failure.BadSpec <==> all.error == EditError.BadSpec)
                                   && (phase.outcome.why == Failure.Crashed <==> all.error == EditError.Crashed))
                  && (all.Ok? && !all.value.1 ==> phase == Releasing(Success(false)))
                  && (all.Ok? && all.value.1 ==> phase == Releasing(Failed(VerifyFailed)) || phase.Staged?)
                  && (phase.Staged? ==> phase.draft.next == all.value.0 && phase.draft.raw == file))
  {
    var tree := TreeOf(file, job.createIfMissing);
    if tree.Some? {
      DeclaredIsPristine(job.ops);
      FirstAttemptIsDeclared(tree.value, job.ops, Declared(job.ops), mentions);
    }
  }

  /** While nobody was killed, an unfinished process means some editor can move. */
  lemma {:induction false} NoDeadlock(jobs: map<Pid, Job>, s: State, events: seq<Event>, mentions: Mentions, p: Pid)
    returns (ev: Event)
    requires Initial(jobs, s) && Run(jobs, s, events, mentions).Some? && p in jobs
    requires var end := Run(jobs, s, events, mentions).value;
             !end.procs[p].phase.Finished? && forall q :: q in end.procs ==> !end.procs[q].phase.Killed?
    ensures !ev.Intrude? && !ev.Kill? && !ev.GiveUp?
    ensures Enabled(Run(jobs, s, events, mentions).value, ev)
  {
    RunKeepsInv(jobs, s, events, mentions);
    var end := Run(jobs, s, events, mentions).value;
    assert PhaseInv(jobs[p], end, p, end.procs[p], mentions);
    ev := if end.lock.None? then Acquire(p) else NextMove(end, end.lock.value);
  }

  /** The step the lock holder takes next. */
  function NextMove(s: State, h: Pid): (ev: Event)
    requires h in s.procs && s.procs[h].phase.InsideLock()
    ensures !ev.Intrude? && !ev.Kill? && !ev.GiveUp? && Enabled(s, ev)
  {
    match s.procs[h].phase
    case Holding => Snapshot(h)
    case Staged(_) => Recheck(h)
    case Rechecked(_) => Replace(h)
    case Replaced(_) => Audit(h)
    case Releasing(_) => Release(h)
  }

  // ---- Serial composition ----

  function CommittedOps(history: seq<Write>): seq<Op> {
    if history == [] then []
    else
      var w := history[|history| - 1];
      CommittedOps(history[..|history| - 1]) + if w.Commit? then w.used else []
  }

  lemma {:induction false} ApplyAllAppend(t: Json, a: seq<Op>, b: seq<Op>, mentions: Mentions)
    requires t.Dict? && ApplyAll(t, a, mentions).Ok?
    requires ApplyAll(ApplyAll(t, a, mentions).value.0, b, mentions).Ok?
    ensures ApplyAll(t, a + b, mentions).Ok?
    ensures ApplyAll(t, a + b, mentions).value.0 == ApplyAll(ApplyAll(t, a, mentions).value.0, b, mentions).value.0
  {
    if b == [] {
      assert a + b == a;
    } else {
      assert (a + b)[..|a + b| - 1] == a + b[..|b| - 1];
      ApplyAllAppend(t, a, b[..|b| - 1], mentions);
    }
  }

  /** A replayed commit applied operations of the declared kinds and paths to what it overwrote, the declared ones on a
      first attempt and whenever no operation reaches into a value set before it. */
  lemma {:induction false} CommitIsEdit(jobs: map<Pid, Job>, file: Option<Text>, w: Write, mentions: Mentions)
    requires w.Commit? && Faithful(jobs, w, mentions) && Rewrite(jobs, file, w, mentions).Some?
    ensures var tree := TreeOf(file, jobs[w.pid].createIfMissing);
            && tree.Some? && ApplyAll(tree.value, w.used, mentions).Ok?
            && Rewrite(jobs, file, w, mentions) == Some(Some(Canonical(ApplyAll(tree.value, w.used, mentions).value.0)))
            && Retry(w.earlier, tree.value, jobs[w.pid].ops, mentions)
               == Some(ApplyAll(tree.value, w.used, mentions).value.0)
            && SameShape(w.used, jobs[w.pid].ops)
            && (w.earlier == [] || Apart(jobs[w.pid].ops) ==> w.used == jobs[w.pid].ops)
  {
    var job := jobs[w.pid];
    var tree, values := TreeOf(file, job.createIfMissing).value, AfterAttempts(w.earlier, job.ops, mentions).value;
    AttemptsProper(w.earlier, job.ops, mentions);
    AttemptIsUsed(tree, job.ops, values, mentions);
    if w.earlier == [] || Apart(job.ops) {
      AttemptsPristine(w.earlier, job.ops, mentions);
      UsedIsDeclared(tree, job.ops, values, mentions);
    }
  }

  /** A committed removal that works alone in its list left exactly what survives of the array the commit overwrote. */
  lemma {:induction false} CommittedRemoval(jobs: map<Pid, Job>, file: Option<Text>, w: Write, i: nat,
                                            mentions: Mentions)
    returns (at: seq<nat>)
    requires w.Commit? && Faithful(jobs, w, mentions) && Rewrite(jobs, file, w, mentions).Some?
    requires i < |jobs[w.pid].ops| && WorksAlone(jobs[w.pid].ops, i) && jobs[w.pid].ops[i].RemoveBySubstring?
    requires TreeOf(file, jobs[w.pid].createIfMissing).Some?
    requires var tree := TreeOf(file, jobs[w.pid].createIfMissing).value;
             Subtree(tree, jobs[w.pid].ops[i].path).Some? && Subtree(tree, jobs[w.pid].ops[i].path).value.List?
    ensures var op, next := jobs[w.pid].ops[i], TreeOf(Rewrite(jobs, file, w, mentions).value, true);
            && next.Some?
            && PicksSurvivors(ItemsAt(Subtree(TreeOf(file, jobs[w.pid].createIfMissing).value, op.path)),
                              ItemsAt(Subtree(next.value, op.path)), at, op.substring, op.nestedKey, mentions)
  {
    var job := jobs[w.pid];
    var tree := TreeOf(file, job.createIfMissing).value;
    CommitIsEdit(jobs, file, w, mentions);
    ShapeWorksAlone(w.used, job.ops, i);
    at := RemovalInList(tree, w.used, i, mentions);
  }

  lemma {:induction false} CommitsCompose(jobs: map<Pid, Job>, initial: Option<Text>, history: seq<Write>,
                                          mentions: Mentions)
    requires AllFaithful(jobs, history, mentions) && (forall i :: 0 <= i < |history| ==> history[i].Commit?)
    requires history != [] && Replay(jobs, initial, history, mentions).Some?
    ensures TreeOf(initial, true).Some?
    ensures var all := ApplyAll(TreeOf(initial, true).value, CommittedOps(history), mentions);
            all.Ok? && Replay(jobs, initial, history, mentions) == Some(Some(Canonical(all.value.0)))
  {
    var init, w := history[..|history| - 1], history[|history| - 1];
    CommitIsEdit(jobs, Replay(jobs, initial, init, mentions).value, w, mentions);
    if init == [] {
      assert CommittedOps(history) == [] + w.used == w.used;
    } else {
      CommitsCompose(jobs, initial, init, mentions);
      ApplyAllAppend(TreeOf(initial, true).value, CommittedOps(init), w.used, mentions);
    }
  }

  /** When only editors wrote, the file is the initial tree with all committed operation lists applied
      in commit order. */
  lemma {:induction false} EditorsComposeSerially(jobs: map<Pid, Job>, s: State, events: seq<Event>, mentions: Mentions)
    requires Initial(jobs, s) && Run(jobs, s, events, mentions).Some?
    requires forall w :: w in Run(jobs, s, events, mentions).value.history ==> w.Commit?
    ensures var end := Run(jobs, s, events, mentions).value;
            && AllFaithful(jobs, end.history, mentions)
            && if end.history == [] then end.file == s.file
               else
                 TreeOf(s.file, true).Some? &&
                 var all := ApplyAll(TreeOf(s.file, true).value, CommittedOps(end.history), mentions);
                 all.Ok? && end.file == Some(Canonical(all.value.0))
  {
    RunKeepsInv(jobs, s, events, mentions);
    var end := Run(jobs, s, events, mentions).value;
    if end.history != [] {
      CommitsCompose(jobs, s.file, end.history, mentions);
    }
  }

  // ---- Settings nobody declared ----

  lemma {:induction false} ShapeForeign(used: seq<Op>, ops: seq<Op>, q: Path)
    requires SameShape(used, ops) && Foreign(q, ops)
    ensures Foreign(q, used)
  {
    forall i | 0 <= i < |used| && !used[i].Other? ensures Incomparable(q, used[i].path) {
      assert used[i] == WithValue(ops[i], ValueOf(used[i]));
    }
  }

  /** The content the editors last built on: the latest foreign write, or else the initial file. */
  function Base(initial: Option<Text>, history: seq<Write>): Option<Text> {
    if history == [] then initial
    else
      var w := history[|history| - 1];
      if w.ForeignWrite? then w.content else Base(initial, history[..|history| - 1])
  }

  /** `file` agrees with `base` about `q`; a base the editors refuse is still there unchanged. */
  predicate Agrees(file: Option<Text>, base: Option<Text>, q: Path) {
    var now, then_ := TreeOf(file, true), TreeOf(base, true);
    if then_.Some? then now.Some? && Subtree(now.value, q) == Subtree(then_.value, q) else file == base
  }

  lemma {:induction false} ReplayAgrees(jobs: map<Pid, Job>, initial: Option<Text>, history: seq<Write>,
                                        mentions: Mentions, q: Path)
    requires AllFaithful(jobs, history, mentions) && Replay(jobs, initial, history, mentions).Some?
    requires forall p :: p in jobs ==> Foreign(q, jobs[p].ops)
    ensures Agrees(Replay(jobs, initial, history, mentions).value, Base(initial, history), q)
  {
    if history != [] && history[|history| - 1].Commit? {
      var init, w := history[..|history| - 1], history[|history| - 1];
      ReplayAgrees(jobs, initial, init, mentions, q);
      var before := Replay(jobs, initial, init, mentions).value;
      CommitIsEdit(jobs, before, w, mentions);
      ShapeForeign(w.used, jobs[w.pid].ops, q);
      ListFrame(TreeOf(before, jobs[w.pid].createIfMissing).value, w.used, q, mentions);
    }
  }

  /** A setting no editor declared always reads as in the last foreign write, or as in the initial file before any. */
  lemma {:induction false} ForeignSettingsSurvive(jobs: map<Pid, Job>, s: State, events: seq<Event>,
                                                  mentions: Mentions, q: Path)
    requires Initial(jobs, s) && Run(jobs, s, events, mentions).Some?
    requires forall p :: p in jobs ==> Foreign(q, jobs[p].ops)
    ensures var end := Run(jobs, s, events, mentions).value; Agrees(end.file, Base(s.file, end.history), q)
  {
    RunKeepsInv(jobs, s, events, mentions);
    ReplayAgrees(jobs, s.file, Run(jobs, s, events, mentions).value.history, mentions, q);
  }
}
