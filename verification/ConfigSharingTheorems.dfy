/**
 * What sharing leaves intact: the first attempt always computes the declared operations, and so does every attempt when
 * no operation reaches into a value set before it.
 */
module ConfigSharingTheorems {
  import opened Wrappers
  import opened JsonTree
  import opened ConfigEdit
  import opened ConfigSharing

  // ---- Births ----

  predicate OnlyBorn(o: Obj, birth: nat) {
    match o
    case Scalar(_) => true
    case ListObj(b, _) => b == birth
    case DictObj(b, kids) => b == birth && forall k :: k in kids ==> OnlyBorn(kids[k], birth)
  }

  predicate Unborn(o: Obj, birth: nat) {
    match o
    case Scalar(_) => true
    case ListObj(b, _) => b != birth
    case DictObj(b, kids) => b != birth && forall k :: k in kids ==> Unborn(kids[k], birth)
  }

  predicate NoneBorn(kids: map<string, Obj>, birth: nat) {
    forall k :: k in kids ==> Unborn(kids[k], birth)
  }

  lemma {:induction false} LoadBorn(json: Json, birth: nat)
    ensures OnlyBorn(Load(json, birth), birth)
  {
    if json.Dict? {
      forall k | k in json.entries ensures OnlyBorn(Load(json.entries[k], birth), birth) {
        LoadBorn(json.entries[k], birth);
      }
    }
  }

  lemma {:induction false} OnlyBornElsewhere(o: Obj, birth: nat, other: nat)
    requires OnlyBorn(o, birth) && birth != other
    ensures Unborn(o, other)
  {
    if o.DictObj? {
      forall k | k in o.kids ensures Unborn(o.kids[k], other) {
        OnlyBornElsewhere(o.kids[k], birth, other);
      }
    }
  }

  /** An edit brings in no births but those of its value and its own. */
  lemma {:induction false} EditUnborn(kids: map<string, Obj>, path: Path, op: Op, value: Obj, born: nat,
                                      mentions: Mentions, birth: nat)
    requires path != [] && EditObj(kids, path, op, value, born, mentions).Ok?
    requires NoneBorn(kids, birth) && Unborn(value, birth) && born != birth
    ensures NoneBorn(EditObj(kids, path, op, value, born, mentions).value.0, birth)
    decreases |path|
  {
    var next := Lookup(kids, path[0]);
    if |path| > 1 {
      if ShowOption(next).GetOr(Null) == Null {
        if op.Creates() { EditUnborn(map[], path[1..], op, value, born, mentions, birth); }
      } else if next.value.DictObj? {
        EditUnborn(next.value.kids, path[1..], op, value, born, mentions, birth);
      }
    }
  }

  // ---- Which values an edit passes by ----

  lemma {:induction false} StrangerHere(held: Obj, op: Op, path: Path, was: Obj, now: Obj, birth: nat)
    requires OnlyBorn(held, birth) && Unborn(was, birth)
    ensures SyncHere(held, op, path, was, now) == held
    decreases |path|
  {
    if path != [] && held.DictObj? && was.DictObj? && now.DictObj?
       && path[0] in held.kids && path[0] in was.kids && path[0] in now.kids {
      StrangerHere(held.kids[path[0]], op, path[1..], was.kids[path[0]], now.kids[path[0]], birth);
      assert held.kids[path[0] := held.kids[path[0]]] == held.kids;
    }
  }

  /** A value that is not attached does not see the edit. */
  lemma {:induction false} StrangerAt(held: Obj, at: Path, op: Op, path: Path, was: map<string, Obj>,
                                      now: map<string, Obj>, birth: nat)
    requires at != [] && at <= path && OnlyBorn(held, birth) && NoneBorn(was, birth)
    ensures SyncAt(held, at, op, path, was, now) == held
    decreases |at|
  {
    var k := at[0];
    if k in was && k in now {
      if |at| == 1 {
        StrangerHere(held, op, path[1..], was[k], now[k], birth);
      } else if was[k].DictObj? && now[k].DictObj? {
        StrangerAt(held, at[1..], op, path[1..], was[k].kids, now[k].kids, birth);
      }
    }
  }

  // ---- Older values ----

  predicate BornIn(o: Obj, from: nat, to: nat) {
    match o
    case Scalar(_) => true
    case ListObj(b, _) => from <= b < to
    case DictObj(b, kids) => from <= b < to && forall k :: k in kids ==> BornIn(kids[k], from, to)
  }

  predicate KidsBornIn(kids: map<string, Obj>, from: nat, to: nat) {
    forall k :: k in kids ==> BornIn(kids[k], from, to)
  }

  lemma {:induction false} BornWider(o: Obj, birth: nat, from: nat, to: nat)
    requires OnlyBorn(o, birth) && from <= birth < to
    ensures BornIn(o, from, to)
  {
    if o.DictObj? {
      forall k | k in o.kids ensures BornIn(o.kids[k], from, to) { BornWider(o.kids[k], birth, from, to); }
    }
  }

  lemma {:induction false} BornLonger(o: Obj, from: nat, to: nat, later: nat)
    requires BornIn(o, from, to) && to <= later
    ensures BornIn(o, from, later)
  {
    if o.DictObj? {
      forall k | k in o.kids ensures BornIn(o.kids[k], from, later) { BornLonger(o.kids[k], from, to, later); }
    }
  }

  lemma {:induction false} EditBornIn(kids: map<string, Obj>, path: Path, op: Op, value: Obj, born: nat,
                                      mentions: Mentions, from: nat, to: nat)
    requires path != [] && EditObj(kids, path, op, value, born, mentions).Ok?
    requires KidsBornIn(kids, from, to) && BornIn(value, from, to) && from <= born < to
    ensures KidsBornIn(EditObj(kids, path, op, value, born, mentions).value.0, from, to)
    decreases |path|
  {
    var next := Lookup(kids, path[0]);
    if |path| > 1 {
      if ShowOption(next).GetOr(Null) == Null {
        if op.Creates() { EditBornIn(map[], path[1..], op, value, born, mentions, from, to); }
      } else if next.value.DictObj? {
        EditBornIn(next.value.kids, path[1..], op, value, born, mentions, from, to);
      }
    }
  }

  lemma {:induction false} SyncHereBornIn(held: Obj, op: Op, path: Path, was: Obj, now: Obj, from: nat, to: nat)
    requires BornIn(held, from, to) && BornIn(now, from, to)
    ensures BornIn(SyncHere(held, op, path, was, now), from, to)
    decreases |path|
  {
    if path != [] && held.DictObj? && was.DictObj? && now.DictObj? && held.birth != was.birth
       && path[0] in held.kids && path[0] in was.kids && path[0] in now.kids {
      SyncHereBornIn(held.kids[path[0]], op, path[1..], was.kids[path[0]], now.kids[path[0]], from, to);
    }
  }

  lemma {:induction false} SyncBornIn(held: Obj, at: Path, op: Op, path: Path, was: map<string, Obj>,
                                      now: map<string, Obj>, from: nat, to: nat)
    requires at != [] && at <= path && BornIn(held, from, to) && KidsBornIn(now, from, to)
    ensures BornIn(SyncAt(held, at, op, path, was, now), from, to)
    decreases |at|
  {
    var k := at[0];
    if k in was && k in now {
      if |at| == 1 {
        SyncHereBornIn(held, op, path[1..], was[k], now[k], from, to);
      } else if was[k].DictObj? && now[k].DictObj? {
        SyncBornIn(held, at[1..], op, path[1..], was[k].kids, now[k].kids, from, to);
      }
    }
  }

  lemma {:induction false} OlderHere(held: Obj, op: Op, path: Path, was: Obj, now: Obj, n: nat)
    requires BornIn(held, 0, n) && OnlyBorn(was, n)
    ensures SyncHere(held, op, path, was, now) == held
    decreases |path|
  {
    if path != [] && held.DictObj? && was.DictObj? && now.DictObj?
       && path[0] in held.kids && path[0] in was.kids && path[0] in now.kids {
      OlderHere(held.kids[path[0]], op, path[1..], was.kids[path[0]], now.kids[path[0]], n);
      assert held.kids[path[0] := held.kids[path[0]]] == held.kids;
    }
  }

  /** A value older than everything in the tree is not attached to it. */
  lemma {:induction false} OlderAt(held: Obj, at: Path, op: Op, path: Path, was: map<string, Obj>,
                                   now: map<string, Obj>, n: nat)
    requires at != [] && at <= path && BornIn(held, 0, n) && forall k :: k in was ==> OnlyBorn(was[k], n)
    ensures SyncAt(held, at, op, path, was, now) == held
    decreases |at|
  {
    var k := at[0];
    if k in was && k in now {
      if |at| == 1 {
        OlderHere(held, op, path[1..], was[k], now[k], n);
      } else if was[k].DictObj? && now[k].DictObj? {
        OlderAt(held, at[1..], op, path[1..], was[k].kids, now[k].kids, n);
      }
    }
  }

  /** A value the operation does not reach into stays as it is, attached or not. */
  lemma {:induction false} UnreachedAt(held: Obj, at: Path, op: Op, path: Path, was: map<string, Obj>,
                                       now: map<string, Obj>)
    requires at != [] && at <= path
    requires if at == path then !(op.AppendUnique? && held.ListObj?) else !held.DictObj?
    ensures SyncAt(held, at, op, path, was, now) == held
    decreases |at|
  {
    var k := at[0];
    if |at| > 1 && k in was && k in now && was[k].DictObj? && now[k].DictObj? {
      assert at == [k] + at[1..] && path == [path[0]] + path[1..];
      UnreachedAt(held, at[1..], op, path[1..], was[k].kids, now[k].kids);
    }
  }

  // ---- The first attempt ----

  /** From `j` on the values are as declared. */
  predicate Untouched(objs: seq<Obj>, ops: seq<Op>, j: nat)
    decreases |ops| - j
  {
    |objs| == |ops| && (j < |ops| ==> objs[j] == Load(ValueOf(ops[j]), j) && Untouched(objs, ops, j + 1))
  }

  predicate Pristine(ops: seq<Op>, vs: Values) {
    Untouched(vs.objs, ops, 0) && vs.next >= |ops|
  }

  /** The values of the operations from `j` on are not in the tree. */
  predicate StillOutside(kids: map<string, Obj>, ops: seq<Op>, j: nat)
    decreases |ops| - j
  {
    j < |ops| ==> NoneBorn(kids, j) && StillOutside(kids, ops, j + 1)
  }

  lemma {:induction false} UntouchedAt(objs: seq<Obj>, ops: seq<Op>, j: nat, i: nat)
    requires Untouched(objs, ops, j) && j <= i < |ops|
    ensures objs[i] == Load(ValueOf(ops[i]), i)
    decreases i - j
  {
    if j < i { UntouchedAt(objs, ops, j + 1, i); }
  }

  lemma {:induction false} OutsideAt(kids: map<string, Obj>, ops: seq<Op>, j: nat, i: nat)
    requires StillOutside(kids, ops, j) && j <= i < |ops|
    ensures NoneBorn(kids, i)
    decreases i - j
  {
    if j < i { OutsideAt(kids, ops, j + 1, i); }
  }

  lemma {:induction false} UntouchedIf(objs: seq<Obj>, ops: seq<Op>, j: nat)
    requires |objs| == |ops| && forall i :: j <= i < |ops| ==> objs[i] == Load(ValueOf(ops[i]), i)
    ensures Untouched(objs, ops, j)
    decreases |ops| - j
  {
    if j < |ops| { UntouchedIf(objs, ops, j + 1); }
  }

  lemma {:induction false} OutsideIf(kids: map<string, Obj>, ops: seq<Op>, j: nat)
    requires forall i :: j <= i < |ops| ==> NoneBorn(kids, i)
    ensures StillOutside(kids, ops, j)
    decreases |ops| - j
  {
    if j < |ops| { OutsideIf(kids, ops, j + 1); }
  }

  lemma {:induction false} DeclaredIsPristine(ops: seq<Op>)
    ensures Pristine(ops, Declared(ops))
  {
    UntouchedIf(Declared(ops).objs, ops, 0);
  }

  /** A freshly copied file holds no operation's value. */
  lemma {:induction false} StartOutside(tree: Json, ops: seq<Op>, vs: Values)
    requires tree.Dict? && vs.next >= |ops|
    ensures StillOutside(Start(tree, vs).kids, ops, 0)
  {
    LoadBorn(tree, vs.next);
    forall i | 0 <= i < |ops| ensures NoneBorn(Start(tree, vs).kids, i) {
      OnlyBornElsewhere(Load(tree, vs.next), vs.next, i);
    }
    OutsideIf(Start(tree, vs).kids, ops, 0);
  }

  lemma {:induction false} PristineProper(ops: seq<Op>, vs: Values)
    requires Pristine(ops, vs)
    ensures ProperObjs(vs.objs)
  {
    forall i | 0 <= i < |ops| ensures Proper(vs.objs[i]) {
      UntouchedAt(vs.objs, ops, 0, i);
      LoadShows(ValueOf(ops[i]), i);
    }
  }

  lemma {:induction false} SyncPassesBy(held: Obj, owner: Op, i: nat, op: Op, was: map<string, Obj>,
                                        now: map<string, Obj>)
    requires !op.Other? && held == Load(ValueOf(owner), i) && NoneBorn(was, i)
    ensures SyncValue(held, owner, op, was, now) == held
  {
    LoadBorn(ValueOf(owner), i);
    if owner.Set? && owner.path != [] && owner.path <= op.path {
      StrangerAt(held, owner.path, op, op.path, was, now, i);
    }
  }

  lemma {:induction false} StepLeavesLater(p: Progress, ops: seq<Op>, j: nat, born: nat, mentions: Mentions)
    requires j < |ops| && Untouched(p.objs, ops, j) && StillOutside(p.kids, ops, j) && born >= |ops|
    requires StepShared(p, ops, j, born, mentions).Ok?
    ensures var step := StepShared(p, ops, j, born, mentions).value;
            Untouched(step.objs, ops, j + 1) && StillOutside(step.kids, ops, j + 1)
  {
    var op, step := ops[j], StepShared(p, ops, j, born, mentions).value;
    UntouchedAt(p.objs, ops, j, j);
    LoadBorn(ValueOf(op), j);
    forall i | j + 1 <= i < |ops| ensures step.objs[i] == Load(ValueOf(ops[i]), i) && NoneBorn(step.kids, i) {
      UntouchedAt(p.objs, ops, j, i);
      OutsideAt(p.kids, ops, j, i);
      SyncPassesBy(p.objs[i], ops[i], i, op, p.kids, step.kids);
      OnlyBornElsewhere(p.objs[j], j, i);
      EditUnborn(p.kids, op.path, op, p.objs[j], born, mentions, i);
    }
    UntouchedIf(step.objs, ops, j + 1);
    OutsideIf(step.kids, ops, j + 1);
  }

  /** One step with a value as declared: the declared operation, or its error for the whole list. */
  lemma {:induction false} DeclaredStep(p: Progress, ops: seq<Op>, j: nat, born: nat, tree: Json, mentions: Mentions)
    requires j < |ops| == |p.objs| && p.objs[j] == Load(ValueOf(ops[j]), j) && tree.Dict?
             && Reads(p, tree, ops[..j], mentions)
    ensures var step := StepShared(p, ops, j, born, mentions);
            if step.Ok? then Reads(step.value, tree, ops[..j + 1], mentions)
            else ApplyAll(tree, ops, mentions) == Err(step.error)
  {
    LoadShows(ValueOf(ops[j]), j);
    assert WithValue(ops[j], Show(p.objs[j])) == ops[j] && ops[..j + 1] == ops[..j] + [ops[j]];
    StepMirrors(p, ops, j, born, mentions);
    ApplyAllSnoc(tree, ops[..j], ops[j], mentions);
    if StepShared(p, ops, j, born, mentions).Ok? {
      StepReads(p, ops, j, born, tree, ops[..j], mentions);
    } else {
      ApplyAllFails(tree, ops, j + 1, mentions);
    }
  }

  /** The run has the outcome of the declared operations. */
  predicate SameOutcome(run: Result<Progress, EditError>, ops: seq<Op>, tree: Json, mentions: Mentions)
    requires tree.Dict?
  {
    if run.Ok? then Reads(run.value, tree, ops, mentions) else ApplyAll(tree, ops, mentions) == Err(run.error)
  }

  lemma RunGoesOn(p: Progress, ops: seq<Op>, j: nat, base: nat, mentions: Mentions)
    requires |p.objs| == |ops| && j < |ops|
    ensures var step := StepShared(p, ops, j, base + 1 + j, mentions);
            RunFrom(p, ops, j, base, mentions)
            == if step.Ok? then RunFrom(step.value, ops, j + 1, base, mentions) else step
  {}

  lemma {:induction false} RunIsDeclared(p: Progress, ops: seq<Op>, j: nat, base: nat, tree: Json, mentions: Mentions)
    requires j <= |ops| <= base && Untouched(p.objs, ops, j) && StillOutside(p.kids, ops, j)
    requires tree.Dict? && Reads(p, tree, ops[..j], mentions)
    ensures SameOutcome(RunFrom(p, ops, j, base, mentions), ops, tree, mentions)
    decreases |ops| - j
  {
    if j == |ops| {
      assert ops[..j] == ops;
    } else {
      DeclaredStep(p, ops, j, base + 1 + j, tree, mentions);
      RunGoesOn(p, ops, j, base, mentions);
      var step := StepShared(p, ops, j, base + 1 + j, mentions);
      if step.Ok? {
        StepLeavesLater(p, ops, j, base + 1 + j, mentions);
        RunIsDeclared(step.value, ops, j + 1, base, tree, mentions);
      }
    }
  }

  /** An attempt on values as declared has the outcome of the declared operations, on every list of operations. */
  lemma {:induction false} FirstAttemptIsDeclared(tree: Json, ops: seq<Op>, vs: Values, mentions: Mentions)
    requires tree.Dict? && Pristine(ops, vs)
    ensures var run, pure := Attempt(tree, ops, vs, mentions), ApplyAll(tree, ops, mentions);
            && (run.Ok? <==> pure.Ok?) && (run.Err? ==> run.error == pure.error)
            && (run.Ok? ==> pure == Ok((Dict(ShowKids(run.value.kids)), run.value.changed)))
  {
    LoadedTree(tree, vs.next);
    StartOutside(tree, ops, vs);
    PristineProper(ops, vs);
    assert ops[..0] == [];
    RunIsDeclared(Start(tree, vs), ops, 0, vs.next, tree, mentions);
  }

  lemma {:induction false} DeclaredNow(op: Op, obj: Obj, j: nat)
    requires obj == Load(ValueOf(op), j)
    ensures WithValue(op, Show(obj)) == op
  {
    LoadShows(ValueOf(op), j);
  }

  lemma {:induction false} UsedCons(p: Progress, ops: seq<Op>, j: nat, base: nat, mentions: Mentions)
    requires |p.objs| == |ops| && j < |ops| && RunFrom(p, ops, j, base, mentions).Ok?
    requires WithValue(ops[j], Show(p.objs[j])) == ops[j]
    requires var step := StepShared(p, ops, j, base + 1 + j, mentions);
             step.Ok? && RunFrom(step.value, ops, j + 1, base, mentions).Ok?
             && UsedFrom(step.value, ops, j + 1, base, mentions) == ops[j + 1..]
    ensures UsedFrom(p, ops, j, base, mentions) == ops[j..]
  {
    assert ops[j..] == [ops[j]] + ops[j + 1..];
  }

  lemma {:induction false} UsedFromIsDeclared(p: Progress, ops: seq<Op>, j: nat, base: nat, mentions: Mentions)
    requires j <= |ops| <= base && Untouched(p.objs, ops, j) && StillOutside(p.kids, ops, j)
    requires RunFrom(p, ops, j, base, mentions).Ok?
    ensures UsedFrom(p, ops, j, base, mentions) == ops[j..]
    decreases |ops| - j
  {
    if j < |ops| {
      DeclaredNow(ops[j], p.objs[j], j);
      StepLeavesLater(p, ops, j, base + 1 + j, mentions);
      UsedFromIsDeclared(StepShared(p, ops, j, base + 1 + j, mentions).value, ops, j + 1, base, mentions);
      UsedCons(p, ops, j, base, mentions);
    }
  }

  lemma {:induction false} UsedIsDeclared(tree: Json, ops: seq<Op>, vs: Values, mentions: Mentions)
    requires tree.Dict? && Pristine(ops, vs) && Attempt(tree, ops, vs, mentions).Ok?
    ensures Used(tree, ops, vs, mentions) == ops
  {
    StartOutside(tree, ops, vs);
    UsedFromIsDeclared(Start(tree, vs), ops, 0, vs.next, mentions);
    assert ops[0..] == ops;
  }

  // ---- Lists that share nothing ----

  /** `b` edits inside the container that `a` sets. */
  predicate Reaches(a: Op, b: Op) {
    a.Set? && !b.Other?
      && ((a.value.Dict? && a.path < b.path) || (a.value.List? && a.path == b.path && b.AppendUnique?))
  }

  predicate Apart(ops: seq<Op>) {
    forall i, j :: 0 <= i < j < |ops| ==> !Reaches(ops[i], ops[j])
  }

  lemma {:induction false} StepKeepsValues(p: Progress, ops: seq<Op>, j: nat, born: nat, mentions: Mentions)
    requires j < |ops| && Apart(ops) && Untouched(p.objs, ops, 0) && StillOutside(p.kids, ops, j) && born >= |ops|
    requires StepShared(p, ops, j, born, mentions).Ok?
    ensures StepShared(p, ops, j, born, mentions).value.objs == p.objs
  {
    var op, step := ops[j], StepShared(p, ops, j, born, mentions).value;
    forall i | 0 <= i < |ops| ensures step.objs[i] == p.objs[i] {
      UntouchedAt(p.objs, ops, 0, i);
      if i > j {
        OutsideAt(p.kids, ops, j, i);
        SyncPassesBy(p.objs[i], ops[i], i, op, p.kids, step.kids);
      } else if ops[i].Set? && ops[i].path != [] && ops[i].path <= op.path {
        UnreachedAt(p.objs[i], ops[i].path, op, op.path, p.kids, step.kids);
      }
    }
  }

  lemma {:induction false} LaterUntouched(objs: seq<Obj>, ops: seq<Op>, j: nat)
    requires Untouched(objs, ops, 0)
    ensures Untouched(objs, ops, j)
  {
    forall i | j <= i < |ops| ensures objs[i] == Load(ValueOf(ops[i]), i) { UntouchedAt(objs, ops, 0, i); }
    UntouchedIf(objs, ops, j);
  }

  lemma {:induction false} RunKeepsValues(p: Progress, ops: seq<Op>, j: nat, base: nat, mentions: Mentions)
    requires j <= |ops| <= base && Apart(ops) && Untouched(p.objs, ops, 0) && StillOutside(p.kids, ops, j)
    requires RunFrom(p, ops, j, base, mentions).Ok?
    ensures RunFrom(p, ops, j, base, mentions).value.objs == p.objs
    decreases |ops| - j
  {
    if j < |ops| {
      StepKeepsValues(p, ops, j, base + 1 + j, mentions);
      LaterUntouched(p.objs, ops, j);
      StepLeavesLater(p, ops, j, base + 1 + j, mentions);
      RunKeepsValues(StepShared(p, ops, j, base + 1 + j, mentions).value, ops, j + 1, base, mentions);
    }
  }

  /** When no operation reaches into a value set before it, an attempt leaves every value as declared for the next
      one. */
  lemma {:induction false} ApartKeepsValues(tree: Json, ops: seq<Op>, vs: Values, mentions: Mentions)
    requires tree.Dict? && Pristine(ops, vs) && Apart(ops) && Attempt(tree, ops, vs, mentions).Ok?
    ensures var objs := Attempt(tree, ops, vs, mentions).value.objs;
            objs == vs.objs && Pristine(ops, After(vs, ops, objs)) && Current(ops, objs) == ops
  {
    StartOutside(tree, ops, vs);
    forall i | 0 <= i < |ops| ensures WithValue(ops[i], Show(vs.objs[i])) == ops[i] {
      UntouchedAt(vs.objs, ops, 0, i);
      LoadShows(ValueOf(ops[i]), i);
    }
    RunKeepsValues(Start(tree, vs), ops, 0, vs.next, mentions);
  }

  // ---- From attempt to attempt ----

  lemma {:induction false} OneMoreAttempt(ts: seq<Json>, t: Json, ops: seq<Op>, mentions: Mentions)
    requires AfterAttempts(ts, ops, mentions).Some? && t.Dict?
    requires Attempt(t, ops, AfterAttempts(ts, ops, mentions).value, mentions).Ok?
    ensures var vs := AfterAttempts(ts, ops, mentions).value;
            AfterAttempts(ts + [t], ops, mentions) == Some(After(vs, ops, Attempt(t, ops, vs, mentions).value.objs))
  {
    assert (ts + [t])[..|ts|] == ts;
  }

  lemma {:induction false} AttemptsProper(ts: seq<Json>, ops: seq<Op>, mentions: Mentions)
    requires AfterAttempts(ts, ops, mentions).Some?
    ensures ProperObjs(AfterAttempts(ts, ops, mentions).value.objs)
  {
    if ts == [] {
      DeclaredIsPristine(ops);
      PristineProper(ops, Declared(ops));
    } else {
      AttemptsProper(ts[..|ts| - 1], ops, mentions);
      AttemptIsUsed(ts[|ts| - 1], ops, AfterAttempts(ts[..|ts| - 1], ops, mentions).value, mentions);
    }
  }

  /** The values are as declared before the first attempt, and before every one when no operation reaches into a value
      set before it. */
  lemma {:induction false} AttemptsPristine(ts: seq<Json>, ops: seq<Op>, mentions: Mentions)
    requires AfterAttempts(ts, ops, mentions).Some? && (ts == [] || Apart(ops))
    ensures Pristine(ops, AfterAttempts(ts, ops, mentions).value)
  {
    if ts == [] {
      DeclaredIsPristine(ops);
    } else {
      AttemptsPristine(ts[..|ts| - 1], ops, mentions);
      ApartKeepsValues(ts[|ts| - 1], ops, AfterAttempts(ts[..|ts| - 1], ops, mentions).value, mentions);
    }
  }
}
