/** When the commits of a run are what their jobs declared, retries included. */
module ConfigRuns {
  import opened Wrappers
  import opened JsonTree
  import opened ConfigEdit
  import opened ConfigDiffTheorems
  import opened ConfigApplyTheorems
  import opened ConfigSharing
  import opened ConfigSharingTheorems
  import opened ConfigRetry
  import opened ConfigProtocol
  import opened ConfigTransaction

  // ---- Commits as declared ----

  function DeclaredOps(jobs: map<Pid, Job>, history: seq<Write>): seq<Op> {
    if history == [] then []
    else
      var w := history[|history| - 1];
      DeclaredOps(jobs, history[..|history| - 1]) + if w.Commit? && w.pid in jobs then jobs[w.pid].ops else []
  }

  /** Commits made on a first attempt, or of lists none of whose operations reaches into a value set before it, carry
      the declared operations. */
  lemma {:induction false} CommittedAsDeclared(jobs: map<Pid, Job>, initial: Option<Text>, history: seq<Write>,
                                               mentions: Mentions)
    requires AllFaithful(jobs, history, mentions) && Replay(jobs, initial, history, mentions).Some?
    requires forall i :: 0 <= i < |history| && history[i].Commit? ==>
             history[i].earlier == [] || Apart(jobs[history[i].pid].ops)
    ensures CommittedOps(history) == DeclaredOps(jobs, history)
  {
    if history != [] {
      var init, w := history[..|history| - 1], history[|history| - 1];
      CommittedAsDeclared(jobs, initial, init, mentions);
      if w.Commit? { CommitIsEdit(jobs, Replay(jobs, initial, init, mentions).value, w, mentions); }
    }
  }

  /** The commit was made on a first attempt, or of a list that computes what it declares in every attempt. */
  predicate Dependable(jobs: map<Pid, Job>, w: Write, mentions: Mentions) {
    w.Commit? ==> w.pid in jobs && (w.earlier == [] || Settles(jobs[w.pid].ops, mentions))
  }

  /** The history replayed with every commit taken as its declared operations on the content it overwrites. */
  function DeclaredReplay(jobs: map<Pid, Job>, initial: Option<Text>, history: seq<Write>,
                          mentions: Mentions): Option<Option<Text>> {
    if history == [] then Some(initial)
    else
      var w, before := history[|history| - 1], DeclaredReplay(jobs, initial, history[..|history| - 1], mentions);
      if before.None? then None
      else if w.ForeignWrite? then Some(w.content)
      else if w.pid !in jobs then None
      else
        var tree := TreeOf(before.value, jobs[w.pid].createIfMissing);
        var next := if tree.None? then None else AsDeclared(tree.value, jobs[w.pid].ops, mentions);
        if next.None? then None else Some(Some(Canonical(next.value)))
  }

  lemma {:induction false} ReplayAsDeclared(jobs: map<Pid, Job>, initial: Option<Text>, history: seq<Write>,
                                            mentions: Mentions)
    requires AllFaithful(jobs, history, mentions) && Replay(jobs, initial, history, mentions).Some?
    requires forall i :: 0 <= i < |history| ==> Dependable(jobs, history[i], mentions)
    ensures DeclaredReplay(jobs, initial, history, mentions) == Replay(jobs, initial, history, mentions)
  {
    if history != [] {
      var init, w := history[..|history| - 1], history[|history| - 1];
      ReplayAsDeclared(jobs, initial, init, mentions);
      if w.Commit? {
        var before := Replay(jobs, initial, init, mentions).value;
        CommitIsEdit(jobs, before, w, mentions);
        SettledRetry(w.earlier, TreeOf(before, jobs[w.pid].createIfMissing).value, jobs[w.pid].ops, mentions);
      }
    }
  }

  /**
   * When every retried job either reaches into no value it set before, or has two operations that do not double, the
   * file is the initial content with every commit replayed as its declared operations on what it overwrote.
   */
  lemma {:induction false} RunsAsDeclared(jobs: map<Pid, Job>, s: State, events: seq<Event>, mentions: Mentions)
    requires Initial(jobs, s) && Run(jobs, s, events, mentions).Some?
    requires forall w :: w in Run(jobs, s, events, mentions).value.history ==> Dependable(jobs, w, mentions)
    ensures var end := Run(jobs, s, events, mentions).value;
            DeclaredReplay(jobs, s.file, end.history, mentions) == Some(end.file)
  {
    RunKeepsInv(jobs, s, events, mentions);
    ReplayAsDeclared(jobs, s.file, Run(jobs, s, events, mentions).value.history, mentions);
  }

  // ---- A list that doubles, in a run ----

  lemma {:induction false} SetOnEmptyChanges(path: Path, set_: Op, mentions: Mentions)
    requires path != [] && set_.Set? && set_.value != Null && EditAt(map[], path, set_, mentions).Ok?
    ensures EditAt(map[], path, set_, mentions).value.1
    decreases |path|
  {
    if |path| > 1 { SetOnEmptyChanges(path[1..], set_, mentions); }
  }

  /** On the empty tree, setting a container passes the diff together with any append. */
  lemma {:induction false} SetOnEmptyPasses(set_: Op, append: Op, mentions: Mentions)
    requires set_.Set? && set_.path != [] && set_.value != Null && EditAt(map[], set_.path, set_, mentions).Ok?
    requires append.AppendUnique?
    ensures Verified(Dict(map[]), Dict(EditAt(map[], set_.path, set_, mentions).value.0), [set_, append], mentions)
  {
    var empty, next := Dict(map[]), Dict(EditAt(map[], set_.path, set_, mentions).value.0);
    assert ApplyOp(empty, set_, mentions).Ok? && ApplyOp(empty, set_, mentions).value.0 == next;
    EmptyIsClean(set_);
    SingleOpAcceptedIffClean(empty, set_, mentions);
    DiffComparesLeaves(empty, next, [set_]);
    DiffComparesLeaves(empty, next, [set_, append]);
    forall p | !Covered(p, [set_, append]) ensures LeafAt(empty, p) == LeafAt(next, p) {
      assert !CoveredBy(p, [set_, append][0].path);
    }
    assert OpHeld([set_][0], [set_][0 + 1..], Subtree(next, [set_][0].path), mentions);
  }

  lemma EmptyIsClean(op: Op)
    requires op.Set? && op.value != Null
    ensures OpClean(Dict(map[]), op)
  {
    forall n | 0 < n < |op.path| ensures Subtree(Dict(map[]), op.path[..n]).None? {
      SubtreeStep(map[], op.path[..n]);
    }
  }

  /** An attempt on the empty tree that appends into the container it sets is staged. */
  lemma {:induction false} StagedOnEmpty(job: Job, vs: Values, earlier: seq<Json>, file: Option<Text>,
                                         mentions: Mentions)
    requires |job.ops| == 2 && job.ops[0].Set? && job.ops[0].path != [] && job.ops[1].AppendUnique?
    requires PairValues(vs, job.ops[1]) && ProperObjs(vs.objs) && TreeOf(file, job.createIfMissing) == Some(Dict(map[]))
    requires var now := WithValue(job.ops[0], Show(vs.objs[0]));
             Reaches(now, job.ops[1]) && Inner(now.value, RestOf(now, job.ops[1]), job.ops[1], mentions).Ok?
    ensures Prepare(job, vs, earlier, file, mentions).Staged?
  {
    var a, b, empty := job.ops[0], job.ops[1], Dict(map[]);
    assert job.ops == [a, b];
    var now := WithValue(a, Show(vs.objs[0]));
    var inner := Inner(now.value, RestOf(now, b), b, mentions).value;
    SetOutcome(map[], a.path, now, now, mentions);
    PairIsSetInner(empty, now, b, mentions);
    SecondUses(empty, a, b, vs, mentions);
    var run := Attempt(empty, job.ops, vs, mentions).value;
    SubtreeStep(map[], a.path);
    AttemptLeaves(empty, a, b, vs, mentions);
    assert WithValue(now, inner) == WithValue(a, inner);
    SetOnEmptyPasses(WithValue(a, inner), WithValue(b, Show(run.objs[1])), mentions);
    assert Current(job.ops, run.objs) == [WithValue(a, inner), WithValue(b, Show(run.objs[1]))];
    FirstSetChanges(a, b, vs, mentions);
  }

  lemma {:induction false} FirstSetChanges(a: Op, b: Op, vs: Values, mentions: Mentions)
    requires a.Set? && PairValues(vs, b) && ProperObjs(vs.objs) && Show(vs.objs[0]) != Null
    requires Attempt(Dict(map[]), [a, b], vs, mentions).Ok?
    ensures Attempt(Dict(map[]), [a, b], vs, mentions).value.changed
  {
    AfterSet(Dict(map[]), a, b, vs, mentions);
    var p0 := Start(Dict(map[]), vs);
    StepMirrors(p0, [a, b], 0, vs.next + 1, mentions);
    SetOnEmptyChanges(a.path, WithValue(a, Show(vs.objs[0])), mentions);
  }

  // ---- One editor, overtaken once ----

  function Alone(file: Option<Text>, lock: Option<Pid>, proc: Proc, history: seq<Write>): State {
    State(file, lock, map[0 := proc], history)
  }

  lemma MovedAlone(file: Option<Text>, lock: Option<Pid>, proc: Proc, history: seq<Write>, phase: Phase)
    ensures Move(Alone(file, lock, proc, history), 0, phase) == Alone(file, lock, proc.(phase := phase), history)
  {}

  lemma {:induction false} RunSnoc(jobs: map<Pid, Job>, s: State, events: seq<Event>, ev: Event, mentions: Mentions)
    requires Staffed(jobs, s) && Run(jobs, s, events, mentions).Some?
    ensures Run(jobs, s, events + [ev], mentions) == Step(jobs, Run(jobs, s, events, mentions).value, ev, mentions)
  {
    assert (events + [ev])[..|events|] == events;
  }

  /** The run has come to `at`. */
  predicate Reached(job: Job, s: State, events: seq<Event>, at: State, mentions: Mentions) {
    Staffed(map[0 := job], s) && Run(map[0 := job], s, events, mentions) == Some(at)
  }

  lemma {:induction false} OneMore(job: Job, s: State, events: seq<Event>, at: State, ev: Event, next: State,
                                   mentions: Mentions)
    returns (more: seq<Event>)
    requires Reached(job, s, events, at, mentions) && Staffed(map[0 := job], at)
    requires Step(map[0 := job], at, ev, mentions) == Some(next)
    ensures Reached(job, s, more, next, mentions)
  {
    RunSnoc(map[0 := job], s, events, ev, mentions);
    more := events + [ev];
  }

  lemma {:induction false} TakesLock(job: Job, s: State, events: seq<Event>, at: State, proc: Proc, mentions: Mentions)
    returns (more: seq<Event>)
    requires Reached(job, s, events, at, mentions) && at == Alone(at.file, None, proc, at.history)
             && proc.phase.Waiting?
    ensures Reached(job, s, more, Alone(at.file, Some(0), proc.(phase := Holding), at.history), mentions)
  {
    MovedAlone(at.file, None, proc, at.history, Holding);
    more := OneMore(
      job, s, events, at, Acquire(0), Alone(at.file, Some(0), proc.(phase := Holding), at.history), mentions);
  }

  lemma {:induction false} Prepares(job: Job, s: State, events: seq<Event>, at: State, proc: Proc, mentions: Mentions)
    returns (more: seq<Event>)
    requires Reached(job, s, events, at, mentions) && at == Alone(at.file, Some(0), proc, at.history)
             && proc.phase.Holding?
    requires |proc.values.objs| == |job.ops|
    ensures Reached(job, s, more, Alone(at.file, Some(0), Prepared(job, proc, at.file, mentions), at.history), mentions)
  {
    var after := Prepared(job, proc, at.file, mentions);
    assert at.procs[0 := after] == map[0 := after];
    more := OneMore(job, s, events, at, Snapshot(0), Alone(at.file, Some(0), after, at.history), mentions);
  }

  lemma {:induction false} IsWritten(job: Job, s: State, events: seq<Event>, at: State, proc: Proc,
                                     other: Option<Text>, mentions: Mentions)
    returns (more: seq<Event>)
    requires Reached(job, s, events, at, mentions) && at == Alone(at.file, Some(0), proc, at.history)
             && proc.phase.Staged?
    ensures Reached(job, s, more, Alone(other, Some(0), proc, at.history + [ForeignWrite(other)]), mentions)
  {
    more := OneMore(
      job, s, events, at, Intrude(other), Alone(other, Some(0), proc, at.history + [ForeignWrite(other)]), mentions);
  }

  lemma {:induction false} LooksInVain(job: Job, s: State, events: seq<Event>, at: State, proc: Proc,
                                       mentions: Mentions)
    returns (more: seq<Event>)
    requires Reached(job, s, events, at, mentions) && at == Alone(at.file, Some(0), proc, at.history)
    requires proc.phase.Staged? && proc.phase.draft.raw != at.file
    ensures var failed := proc.(phase := Releasing(Failed(ConcurrentModification)));
            Reached(job, s, more, Alone(at.file, Some(0), failed, at.history), mentions)
  {
    var failed := proc.(phase := Releasing(Failed(ConcurrentModification)));
    MovedAlone(at.file, Some(0), proc, at.history, failed.phase);
    more := OneMore(job, s, events, at, Recheck(0), Alone(at.file, Some(0), failed, at.history), mentions);
  }

  lemma {:induction false} StartsOver(job: Job, s: State, events: seq<Event>, at: State, proc: Proc, mentions: Mentions)
    returns (more: seq<Event>)
    requires Reached(job, s, events, at, mentions) && at == Alone(at.file, Some(0), proc, at.history)
    requires proc.phase == Releasing(Failed(ConcurrentModification)) && proc.attempts < job.MaxAttempts()
    ensures var again := proc.(phase := Waiting, attempts := proc.attempts + 1);
            Reached(job, s, more, Alone(at.file, None, again, at.history), mentions)
  {
    var again := proc.(phase := Waiting, attempts := proc.attempts + 1);
    assert at.procs[0 := again] == map[0 := again];
    more := OneMore(job, s, events, at, Release(0), Alone(at.file, None, again, at.history), mentions);
  }

  lemma {:induction false} Looks(job: Job, s: State, events: seq<Event>, at: State, proc: Proc, mentions: Mentions)
    returns (more: seq<Event>)
    requires Reached(job, s, events, at, mentions) && at == Alone(at.file, Some(0), proc, at.history)
    requires proc.phase.Staged? && proc.phase.draft.raw == at.file
    ensures Reached(
      job, s, more, Alone(at.file, Some(0), proc.(phase := Rechecked(proc.phase.draft)), at.history), mentions)
  {
    var looked := proc.(phase := Rechecked(proc.phase.draft));
    MovedAlone(at.file, Some(0), proc, at.history, looked.phase);
    more := OneMore(job, s, events, at, Recheck(0), Alone(at.file, Some(0), looked, at.history), mentions);
  }

  /** The state right after the lone editor wrote its draft. */
  function Written(at: State, proc: Proc, d: Draft): State {
    Alone(Some(Canonical(d.next)), Some(0), proc.(phase := Replaced(d)), at.history + [Commit(0, d.earlier, d.used)])
  }

  lemma {:induction false} Writes(job: Job, s: State, events: seq<Event>, at: State, proc: Proc, mentions: Mentions)
    returns (more: seq<Event>)
    requires Reached(job, s, events, at, mentions) && at == Alone(at.file, Some(0), proc, at.history)
    requires proc.phase.Rechecked?
    ensures Reached(job, s, more, Written(at, proc, proc.phase.draft), mentions)
  {
    MovedAlone(at.file, Some(0), proc, at.history, Replaced(proc.phase.draft));
    more := OneMore(job, s, events, at, Replace(0), Written(at, proc, proc.phase.draft), mentions);
  }

  function FirstTry(job: Job, file: Option<Text>, mentions: Mentions): (proc: Proc)
    ensures |proc.values.objs| == |job.ops|
  {
    Prepared(job, Proc(Holding, 1, Declared(job.ops), []), file, mentions)
  }

  function SecondTry(job: Job, file: Option<Text>, other: Option<Text>, mentions: Mentions): (proc: Proc)
    ensures |proc.values.objs| == |job.ops|
  {
    Prepared(job, FirstTry(job, file, mentions).(phase := Holding, attempts := 2), other, mentions)
  }

  lemma PreparedRaw(job: Job, proc: Proc, file: Option<Text>, mentions: Mentions)
    requires |proc.values.objs| == |job.ops| && Prepared(job, proc, file, mentions).phase.Staged?
    ensures var after := Prepared(job, proc, file, mentions);
            after.phase.draft.raw == file && after.phase.draft.earlier == proc.edited && after.attempts == proc.attempts
  {}

  /** Another program writes before the last look, so the editor starts over. */
  lemma {:induction false} IsOvertaken(job: Job, s: State, init: seq<Event>, at: State, proc: Proc,
                                       other: Option<Text>, mentions: Mentions)
    returns (events: seq<Event>)
    requires Reached(job, s, init, at, mentions) && at == Alone(at.file, Some(0), proc, at.history)
    requires proc.phase.Staged? && proc.phase.draft.raw != other && proc.attempts < job.MaxAttempts()
    ensures var again := proc.(phase := Waiting, attempts := proc.attempts + 1);
            Reached(job, s, events, Alone(other, None, again, at.history + [ForeignWrite(other)]), mentions)
  {
    var history := at.history + [ForeignWrite(other)];
    events := IsWritten(job, s, init, at, proc, other, mentions);
    events := LooksInVain(job, s, events, Alone(other, Some(0), proc, history), proc, mentions);
    var failed := proc.(phase := Releasing(Failed(ConcurrentModification)));
    events := StartsOver(job, s, events, Alone(other, Some(0), failed, history), failed, mentions);
  }

  lemma {:induction false} TakesAndPrepares(job: Job, s: State, init: seq<Event>, at: State, proc: Proc,
                                            mentions: Mentions)
    returns (events: seq<Event>)
    requires Reached(job, s, init, at, mentions) && at == Alone(at.file, None, proc, at.history)
    requires proc.phase.Waiting? && |proc.values.objs| == |job.ops|
    ensures var after := Prepared(job, proc.(phase := Holding), at.file, mentions);
            Reached(job, s, events, Alone(at.file, Some(0), after, at.history), mentions)
  {
    events := TakesLock(job, s, init, at, proc, mentions);
    var holding := proc.(phase := Holding);
    events := Prepares(job, s, events, Alone(at.file, Some(0), holding, at.history), holding, mentions);
  }

  lemma {:induction false} FirstTryIsOvertaken(job: Job, s: State, file: Option<Text>, other: Option<Text>,
                                               mentions: Mentions)
    returns (events: seq<Event>)
    requires job.retries >= 2 && file != other && FirstTry(job, file, mentions).phase.Staged?
    requires s == Alone(file, None, Proc(Waiting, 1, Declared(job.ops), []), [])
    ensures var first := FirstTry(job, file, mentions).(phase := Waiting, attempts := 2);
            Reached(job, s, events, Alone(other, None, first, [] + [ForeignWrite(other)]), mentions)
  {
    var proc, holding := Proc(Waiting, 1, Declared(job.ops), []), Proc(Holding, 1, Declared(job.ops), []);
    assert proc.(phase := Holding) == holding;
    events := TakesAndPrepares(job, s, [], s, proc, mentions);
    PreparedRaw(job, holding, file, mentions);
    var first := FirstTry(job, file, mentions);
    events := IsOvertaken(job, s, events, Alone(file, Some(0), first, []), first, other, mentions);
  }

  lemma {:induction false} SecondTryCommits(job: Job, s: State, init: seq<Event>, at: State, first: Proc,
                                            mentions: Mentions)
    returns (events: seq<Event>)
    requires Reached(job, s, init, at, mentions) && at == Alone(at.file, None, first, at.history)
    requires first.phase.Waiting? && |first.values.objs| == |job.ops|
    requires Prepared(job, first.(phase := Holding), at.file, mentions).phase.Staged?
    ensures var second := Prepared(job, first.(phase := Holding), at.file, mentions);
            Reached(job, s, events, Written(at, second, second.phase.draft), mentions)
  {
    var holding := first.(phase := Holding);
    var second := Prepared(job, holding, at.file, mentions);
    events := TakesAndPrepares(job, s, init, at, first, mentions);
    PreparedRaw(job, holding, at.file, mentions);
    events := Looks(job, s, events, Alone(at.file, Some(0), second, at.history), second, mentions);
    var looked := second.(phase := Rechecked(second.phase.draft));
    events := Writes(job, s, events, Alone(at.file, Some(0), looked, at.history), looked, mentions);
  }

  /** An editor whose second attempt commits, after a foreign write cancelled its first one. */
  lemma {:induction false} SecondAttemptCommits(job: Job, file: Option<Text>, other: Option<Text>, mentions: Mentions)
    returns (s: State, events: seq<Event>)
    requires job.retries >= 2 && file != other
    requires FirstTry(job, file, mentions).phase.Staged? && SecondTry(job, file, other, mentions).phase.Staged?
    ensures Initial(map[0 := job], s) && s.file == file && Run(map[0 := job], s, events, mentions).Some?
    ensures var d, end :=
              SecondTry(job, file, other, mentions).phase.draft, Run(map[0 := job], s, events, mentions).value;
            && end.file == Some(Canonical(d.next))
            && end.history == [ForeignWrite(other)] + [Commit(0, d.earlier, d.used)]
  {
    s := Alone(file, None, Proc(Waiting, 1, Declared(job.ops), []), []);
    var init := FirstTryIsOvertaken(job, s, file, other, mentions);
    var first := FirstTry(job, file, mentions).(phase := Waiting, attempts := 2);
    assert first.(phase := Holding) == FirstTry(job, file, mentions).(phase := Holding, attempts := 2);
    events := SecondTryCommits(job, s, init, Alone(other, None, first, [] + [ForeignWrite(other)]), first, mentions);
  }

  lemma {:induction false} FirstTryLeaves(job: Job, file: Option<Text>, mentions: Mentions)
    requires FirstTry(job, file, mentions).phase.Staged?
    ensures var t, first := TreeOf(file, job.createIfMissing), FirstTry(job, file, mentions);
            t.Some? && first.edited == [t.value] && AfterAttempts([t.value], job.ops, mentions) == Some(first.values)
  {
    var t := TreeOf(file, job.createIfMissing).value;
    assert [] + [t] == [t];
    OneAttempt(t, job.ops, mentions);
  }

  lemma PreparedIsRetry(job: Job, proc: Proc, file: Option<Text>, mentions: Mentions)
    requires AfterAttempts(proc.edited, job.ops, mentions) == Some(proc.values)
    requires Prepared(job, proc, file, mentions).phase.Staged?
    ensures TreeOf(file, job.createIfMissing).Some?
    ensures Retry(proc.edited, TreeOf(file, job.createIfMissing).value, job.ops, mentions)
         == Some(Prepared(job, proc, file, mentions).phase.draft.next)
  {}

  lemma {:induction false} SecondTryIsRetry(job: Job, file: Option<Text>, other: Option<Text>, mentions: Mentions)
    requires FirstTry(job, file, mentions).phase.Staged? && SecondTry(job, file, other, mentions).phase.Staged?
    ensures TreeOf(file, job.createIfMissing).Some? && TreeOf(other, job.createIfMissing).Some?
    ensures Retry(
              [TreeOf(file, job.createIfMissing).value], TreeOf(other, job.createIfMissing).value, job.ops, mentions)
         == Some(SecondTry(job, file, other, mentions).phase.draft.next)
  {
    FirstTryLeaves(job, file, mentions);
    PreparedIsRetry(job, FirstTry(job, file, mentions).(phase := Holding, attempts := 2), other, mentions);
  }

  // ---- The exact condition, over runs ----

  /** Two attempts on empty trees, the second with the values the first one left: both are staged, and what the second
      one stages is not what the operations declare. */
  lemma {:induction false} DoublingIsStaged(job: Job, file: Option<Text>, other: Option<Text>, mentions: Mentions)
    requires |job.ops| == 2 && Doubles(job.ops[0], job.ops[1], mentions)
    requires TreeOf(file, job.createIfMissing) == TreeOf(other, job.createIfMissing) == Some(Dict(map[]))
    ensures FirstTry(job, file, mentions).phase.Staged? && SecondTry(job, file, other, mentions).phase.Staged?
    ensures var next := SecondTry(job, file, other, mentions).phase.draft.next;
            AsDeclared(Dict(map[]), job.ops, mentions).Some? && AsDeclared(Dict(map[]), job.ops, mentions) != Some(next)
  {
    var a, b, empty := job.ops[0], job.ops[1], Dict(map[]);
    assert job.ops == [a, b];
    var declared := Declared(job.ops);
    DeclaredPair(a, b);
    DeclaredIsPristine(job.ops);
    PristineProper(job.ops, declared);
    assert WithValue(a, a.value) == a;
    StagedOnEmpty(job, declared, [], file, mentions);
    FirstOnEmpty(a, b, mentions);
    InnerTwice(a.value, RestOf(a, b), b, mentions);
    OneAttempt(empty, job.ops, mentions);
    AttemptsProper([empty], job.ops, mentions);
    FirstTryLeaves(job, file, mentions);
    StagedOnEmpty(job, AfterAttempts([empty], job.ops, mentions).value, [empty], other, mentions);
    DoubledRetry(a, b, mentions);
    SecondTryIsRetry(job, file, other, mentions);
  }

  /** The run ends with every commit as declared. */
  predicate EndsAsDeclared(jobs: map<Pid, Job>, s: State, events: seq<Event>, mentions: Mentions)
    requires Initial(jobs, s)
  {
    var end := Run(jobs, s, events, mentions);
    end.Some? ==> DeclaredReplay(jobs, s.file, end.value.history, mentions) == Some(end.value.file)
  }

  predicate AllRun(jobs: map<Pid, Job>, ops: seq<Op>) {
    forall p :: p in jobs ==> jobs[p].ops == ops
  }

  lemma {:induction false} UndoubledRun(jobs: map<Pid, Job>, s: State, events: seq<Event>, a: Op, b: Op,
                                        mentions: Mentions)
    requires Initial(jobs, s) && AllRun(jobs, [a, b]) && !Doubles(a, b, mentions)
    ensures EndsAsDeclared(jobs, s, events, mentions)
  {
    if Run(jobs, s, events, mentions).Some? {
      RunKeepsInv(jobs, s, events, mentions);
      var history := Run(jobs, s, events, mentions).value.history;
      forall w | w in history ensures Dependable(jobs, w, mentions) {
        var i :| 0 <= i < |history| && history[i] == w;
        assert Faithful(jobs, history[i], mentions);
      }
      RunsAsDeclared(jobs, s, events, mentions);
    }
  }

  lemma {:induction false} DoubledRun(a: Op, b: Op, mentions: Mentions)
    returns (jobs: map<Pid, Job>, s: State, events: seq<Event>)
    requires Doubles(a, b, mentions)
    ensures AllRun(jobs, [a, b]) && Initial(jobs, s) && !EndsAsDeclared(jobs, s, events, mentions)
  {
    var job := Job([a, b], true, false, 2);
    var file, other := Some(Canonical(Dict(map[]))), Some(Authored(0, Some(Dict(map[]))));
    jobs := map[0 := job];
    DoublingIsStaged(job, file, other, mentions);
    s, events := SecondAttemptCommits(job, file, other, mentions);
    var d, end := SecondTry(job, file, other, mentions).phase.draft, Run(jobs, s, events, mentions).value;
    CommitReplaysDeclared(jobs, file, other, Commit(0, d.earlier, d.used), mentions);
  }

  lemma {:induction false} CommitReplaysDeclared(jobs: map<Pid, Job>, file: Option<Text>, other: Option<Text>,
                                                 w: Write, mentions: Mentions)
    requires w.Commit? && w.pid in jobs && TreeOf(other, jobs[w.pid].createIfMissing).Some?
    requires AsDeclared(TreeOf(other, jobs[w.pid].createIfMissing).value, jobs[w.pid].ops, mentions).Some?
    ensures DeclaredReplay(jobs, file, [ForeignWrite(other)] + [w], mentions)
         == Some(Some(Canonical(
              AsDeclared(TreeOf(other, jobs[w.pid].createIfMissing).value, jobs[w.pid].ops, mentions).value)))
  {
    var one := [ForeignWrite(other)];
    assert one[..0] == [] && (one + [w])[..1] == one;
    assert DeclaredReplay(jobs, file, one, mentions) == Some(other);
  }

  /**
   * However many editors run a list of two operations, the first of them a `set`, each commit of every run is what the
   * declared operations make of the content it overwrites, if and only if the list does not double.
   */
  lemma {:induction false} RunsAsDeclaredIff(a: Op, b: Op, mentions: Mentions)
    requires a.Set?
    ensures (forall jobs: map<Pid, Job>, s: State, events: seq<Event> :: AllRun(jobs, [a, b]) && Initial(jobs, s) ==>
               EndsAsDeclared(jobs, s, events, mentions))
            <==> !Doubles(a, b, mentions)
  {
    if Doubles(a, b, mentions) {
      var jobs, s, events := DoubledRun(a, b, mentions);
      assert AllRun(jobs, [a, b]) && Initial(jobs, s) && !EndsAsDeclared(jobs, s, events, mentions);
    } else {
      forall jobs: map<Pid, Job>, s: State, events: seq<Event> | AllRun(jobs, [a, b]) && Initial(jobs, s)
        ensures EndsAsDeclared(jobs, s, events, mentions)
      {
        UndoubledRun(jobs, s, events, a, b, mentions);
      }
    }
  }
}
