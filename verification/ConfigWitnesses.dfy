/** Concrete inputs on which the config editor does not do what its documentation promises. */
module ConfigWitnesses {
  import opened Wrappers
  import opened JsonTree
  import opened ConfigEdit
  import opened ConfigDiffTheorems
  import opened ConfigApplyTheorems
  import opened ConfigSharing
  import opened ConfigSharingTheorems
  import opened ConfigRetry
  import opened ConfigProtocol
  import opened ConfigRuns

  /** A setting under a key spelled like the empty-object marker, beside the way to a declared path, changes
      unnoticed. */
  lemma MarkerKeyChangesUnnoticed()
    ensures var q, ops := ["a", "<empty-dict>"], [Set(["a", "b"], Atom("0"))];
            var t, t' := Nest(q, Atom("1")), Nest(q, Atom("2"));
            && Foreign(q, ops) && OnlyDeclaredChanged(t, t', ops)
            && Subtree(t, q) == Some(Atom("1")) && Subtree(t', q) == Some(Atom("2"))
  {
    var q, ops := ["a", "<empty-dict>"], [Set(["a", "b"], Atom("0"))];
    var t, t' := Nest(q, Atom("1")), Nest(q, Atom("2"));
    assert ["a", "b"][..1] == ["a"] && q[..1] == ["a"];
    assert ops[0].path[1] != q[1];
    assert CoveredBy(q, ops[0].path);
    assert Covered(q, ops);
    forall p ensures !Covered(p, ops) ==> LeafAt(t, p) == LeafAt(t', p) {
      NestLeaves(q, Atom("1"), p);
      NestLeaves(q, Atom("2"), p);
    }
    NestLeaves(q, Atom("1"), q);
    NestLeaves(q, Atom("2"), q);
    DiffComparesLeaves(t, t', ops);
  }

  /** Setting `a.b` where `a` is null succeeds, and the diff rejects the result. */
  lemma NullParentRejected(mentions: Mentions)
    ensures var t, op := Dict(map["a" := Null]), Set(["a", "b"], Atom("1"));
            ApplyOp(t, op, mentions).Ok? && !Verified(t, ApplyOp(t, op, mentions).value.0, [op], mentions)
  {
    var t, op := Dict(map["a" := Null]), Set(["a", "b"], Atom("1"));
    assert op.path[..1] == ["a"] && op.path[1..] == ["b"];
    SubtreeStep(t.entries, ["a"]);
    assert Subtree(t, op.path[..1]) == Some(Null);
    assert NullOnTheWay(t, op.path);
    SingleOpAcceptedIffClean(t, op, mentions);
  }

  /** Appending "x" once for the needle "zzz" and once more leaves it in the array twice. */
  lemma AppendUniqueTwice(mentions: Mentions)
    requires !mentions("zzz", Atom("x"))
    ensures var t, op := Dict(map[]), AppendUnique(["l"], Atom("x"), "zzz");
            var once := ApplyOp(t, op, mentions);
            && once == Ok((Dict(map["l" := List([Atom("x")])]), true))
            && ApplyOp(once.value.0, op, mentions) == Ok((Dict(map["l" := List([Atom("x"), Atom("x")])]), true))
  {
    var x, op := Atom("x"), AppendUnique(["l"], Atom("x"), "zzz");
    assert [] + [x] == [x] && [x] + [x] == [x, x];
    assert !AnyMentions([], "zzz", mentions) && !AnyMentions([x], "zzz", mentions);
    assert EditLeaf(op, None, mentions) == Ok(Some(List([x])))
      && EditLeaf(op, Some(List([x])), mentions) == Ok(Some(List([x, x])));
    assert map["l" := List([x])]["l" := List([x, x])] == map["l" := List([x, x])];
  }

  // ---- Values shared with the tree ----

  function SetThenDelete(): seq<Op> {
    [Set(["a"], Dict(map["k" := Atom("1")])), Delete(["a", "k"])]
  }

  /** A key set and deleted below its parent: the program stages the result, although the declared value is not
      there. */
  lemma {:induction false} DeletedBelowSetIsStaged(mentions: Mentions)
    ensures var ops, done := SetThenDelete(), Dict(map["a" := Dict(map[])]);
            var phase := Prepare(Job(ops, true, false, 1), Declared(ops), [], None, mentions);
            && ApplyAll(Dict(map[]), ops, mentions) == Ok((done, true))
            && phase.Staged? && phase.draft.next == done && !Verified(Dict(map[]), done, ops, mentions)
  {
    var ops, empty, done := SetThenDelete(), Dict(map[]), Dict(map["a" := Dict(map[])]);
    var a, b := ops[0], ops[1];
    assert b.path[1..] == ["k"] && a.path == b.path[..1] && a.path < b.path;
    assert Reaches(a, b) && RestOf(a, b) == ["k"];
    SetThenDeleteResult(mentions);
    DeclaredIsPristine(ops);
    FirstAttemptIsDeclared(empty, ops, Declared(ops), mentions);
    FirstOnEmpty(a, b, mentions);
    var objs := Attempt(empty, ops, Declared(ops), mentions).value.objs;
    assert Show(objs[0]) == Dict(map[]);
    LoadShows(Null, 1);
    SubtreeStep(done.entries, ["a"]);
    SubtreeStep(done.entries, ["a", "k"]);
    assert ["a", "k"][1..] == ["k"];
    UnderSetVerified(Dict(map[]), Current(ops, objs), mentions);
    assert !OpHeld(ops[0], ops[1..], Subtree(done, ops[0].path), mentions);
  }

  lemma {:induction false} SetThenDeleteResult(mentions: Mentions)
    ensures ApplyAll(Dict(map[]), SetThenDelete(), mentions) == Ok((Dict(map["a" := Dict(map[])]), true))
  {
    var ops, empty := SetThenDelete(), Dict(map[]);
    var one := Dict(map["a" := Dict(map["k" := Atom("1")])]);
    assert ops[..0] == [] && ops == [] + [ops[0]] + [ops[1]];
    assert ApplyOp(empty, ops[0], mentions) == Ok((one, true));
    assert ops[1].path[1..] == ["k"];
    assert map["k" := Atom("1")] - {"k"} == map[];
    assert EditAt(map["k" := Atom("1")], ["k"], ops[1], mentions) == Ok((map[], true));
    assert one.entries["a" := Dict(map[])] == map["a" := Dict(map[])];
    assert ApplyOp(one, ops[1], mentions) == Ok((Dict(map["a" := Dict(map[])]), true));
    ApplyAllSnoc(empty, [], ops[0], mentions);
    ApplyAllSnoc(empty, [] + [ops[0]], ops[1], mentions);
  }

  /** On an empty file, whatever ends up under `a` is covered by the path that set it. */
  lemma {:induction false} UnderSetVerified(v: Json, held: seq<Op>, mentions: Mentions)
    requires |held| == 2 && held[0] == Set(["a"], v)
    requires !held[1].Other? ==> OpHeld(held[1], [], Subtree(Dict(map["a" := v]), held[1].path), mentions)
    ensures Verified(Dict(map[]), Dict(map["a" := v]), held, mentions)
  {
    var empty, done := Dict(map[]), Dict(map["a" := v]);
    forall p ensures !Covered(p, held) ==> LeafAt(empty, p) == LeafAt(done, p) {
      if !Covered(p, held) {
        assert !CoveredBy(p, held[0].path);
        assert p != [EMPTY_DICT] by { assert [EMPTY_DICT][..0] <= ["a"]; }
        assert p != [] && p[0] == "a" ==> ["a"] <= p;
      }
    }
    DiffComparesLeaves(empty, done, held);
    SubtreeStep(done.entries, ["a"]);
    assert ["a"][1..] == [] && held[1 + 1..] == [];
  }

  function SetThenAppend(): seq<Op> {
    [Set(["a"], Dict(map[])), AppendUnique(["a", "l"], Atom("x"), "zzz")]
  }

  function OneList(items: seq<Json>): Json {
    Dict(map["a" := Dict(map["l" := List(items)])])
  }

  /** An attempt cancelled by a concurrent change leaves its append in the operation's own value, and the retry appends
      again. */
  lemma {:induction false} RetryAppendsTwice(mentions: Mentions)
    requires !mentions("zzz", Atom("x"))
    ensures var ops, empty := SetThenAppend(), Dict(map[]);
            && ApplyAll(empty, ops, mentions) == Ok((OneList([Atom("x")]), true))
            && Retry([empty], empty, ops, mentions) == Some(OneList([Atom("x"), Atom("x")]))
  {
    var ops, empty := SetThenAppend(), Dict(map[]);
    var a, b := ops[0], ops[1];
    ReachedByAppend();
    AppendIntoSet(Dict(map[]), [Atom("x")], mentions);
    var w := Dict(map["l" := List([Atom("x")])]);
    AppendIntoSet(w, [Atom("x"), Atom("x")], mentions);
    assert Inner(a.value, ["l"], b, mentions) == Ok(w);
    FirstOnEmpty(a, b, mentions);
    var objs := Attempt(empty, ops, Declared(ops), mentions).value.objs;
    assert Show(objs[0]) == w;
    OneAttempt(empty, ops, mentions);
    SecondUses(empty, a, b, After(Declared(ops), ops, objs), mentions);
  }

  /** The same in a run: a foreign write cancels the first attempt, and the second one commits both entries. */
  lemma {:induction false} RetryCommitsTwice(mentions: Mentions) returns (s: State, events: seq<Event>)
    requires !mentions("zzz", Atom("x"))
    ensures var jobs := map[0 := Job(SetThenAppend(), true, false, 2)];
            && Initial(jobs, s) && s.file == None && Run(jobs, s, events, mentions).Some?
            && var end := Run(jobs, s, events, mentions).value;
               && end.file == Some(Canonical(OneList([Atom("x"), Atom("x")])))
               && DeclaredReplay(jobs, None, end.history, mentions) == Some(Some(Canonical(OneList([Atom("x")]))))
  {
    var job, ops, blank := Job(SetThenAppend(), true, false, 2), SetThenAppend(), Some(Authored(0, Some(Dict(map[]))));
    assert ops == [ops[0], ops[1]];
    ReachedByAppend();
    AppendIntoSet(Dict(map[]), [Atom("x")], mentions);
    SubtreeStep(map[], ["l"]);
    assert Doubles(ops[0], ops[1], mentions);
    DoublingIsStaged(job, None, blank, mentions);
    RetryAppendsTwice(mentions);
    SecondTryIsRetry(job, None, blank, mentions);
    s, events := SecondAttemptCommits(job, None, blank, mentions);
    var d := SecondTry(job, None, blank, mentions).phase.draft;
    CommitReplaysDeclared(map[0 := job], None, blank, Commit(0, d.earlier, d.used), mentions);
  }

  lemma ReachedByAppend()
    ensures var ops := SetThenAppend(); Reaches(ops[0], ops[1]) && RestOf(ops[0], ops[1]) == ["l"]
  {
    var ops := SetThenAppend();
    assert ops[1].path[1..] == ["l"] && ops[0].path == ops[1].path[..1] && ops[0].path < ops[1].path;
  }

  lemma {:induction false} ListGrows(v: Json, items: seq<Json>, mentions: Mentions)
    requires !mentions("zzz", Atom("x"))
    requires || (v == Dict(map[]) && items == [Atom("x")])
             || (v == Dict(map["l" := List([Atom("x")])]) && items == [Atom("x"), Atom("x")])
    ensures EditAt(v.entries, ["l"], AppendUnique(["a", "l"], Atom("x"), "zzz"), mentions)
         == Ok((map["l" := List(items)], true))
  {
    var op := AppendUnique(["a", "l"], Atom("x"), "zzz");
    assert [] + [Atom("x")] == [Atom("x")] && [Atom("x")] + [Atom("x")] == [Atom("x"), Atom("x")];
    assert !AnyMentions([], "zzz", mentions) && !AnyMentions([Atom("x")], "zzz", mentions);
    assert v.entries["l" := List(items)] == map["l" := List(items)];
    assert EditLeaf(op, Lookup(v.entries, "l"), mentions) == Ok(Some(List(items)));
  }

  lemma {:induction false} AppendIntoSet(v: Json, items: seq<Json>, mentions: Mentions)
    requires !mentions("zzz", Atom("x"))
    requires || (v == Dict(map[]) && items == [Atom("x")])
             || (v == Dict(map["l" := List([Atom("x")])]) && items == [Atom("x"), Atom("x")])
    ensures ApplyAll(Dict(map[]), [Set(["a"], v), AppendUnique(["a", "l"], Atom("x"), "zzz")], mentions)
         == Ok((OneList(items), true))
    ensures Inner(v, ["l"], AppendUnique(["a", "l"], Atom("x"), "zzz"), mentions) == Ok(Dict(map["l" := List(items)]))
  {
    var ops, empty, one :=
      [Set(["a"], v), AppendUnique(["a", "l"], Atom("x"), "zzz")], Dict(map[]), Dict(map["a" := v]);
    ListGrows(v, items, mentions);
    assert ops == [] + [ops[0]] + [ops[1]];
    assert ApplyOp(empty, ops[0], mentions) == Ok((one, true));
    assert ops[1].path[1..] == ["l"];
    assert one.entries["a" := Dict(map["l" := List(items)])] == OneList(items).entries;
    assert ApplyOp(one, ops[1], mentions) == Ok((OneList(items), true));
    ApplyAllSnoc(empty, [], ops[0], mentions);
    ApplyAllSnoc(empty, [] + [ops[0]], ops[1], mentions);
  }

  // ---- Three operations ----

  function AppendBetweenSets(): seq<Op> {
    [Set(["a"], Dict(map[])), AppendUnique(["a", "b", "l"], Atom("x"), "x"), Set(["a", "b"], Dict(map[]))]
  }

  function Stage(kids: map<string, Obj>, first: Obj, last: Obj): Progress {
    Progress(kids, [first, Load(Atom("x"), 1), last], true)
  }

  function Holding(birth: nat, inner: Obj): Obj {
    DictObj(birth, map["b" := inner])
  }

  function Listed(birth: nat, listBirth: nat): Obj {
    DictObj(birth, map["l" := ListObj(listBirth, [Atom("x")])])
  }

  lemma OneKey<T>(k: string, x: T, y: T)
    ensures map[k := x][k := y] == map[k := y]
  {}

  lemma ListedShows(birth: nat, listBirth: nat)
    ensures Show(Listed(birth, listBirth)) == Dict(map["l" := List([Atom("x")])])
            && Show(Listed(birth, listBirth)) != Dict(map[])
  {
    assert Show(Listed(birth, listBirth)) == Dict(map["l" := List([Atom("x")])]);
    assert "l" in map["l" := List([Atom("x")])];
  }

  /** The three paths, one segment at a time. */
  lemma Segments()
    ensures ["a", "b", "l"][1..] == ["b", "l"] && ["b", "l"][1..] == ["l"] && ["a", "b"][1..] == ["b"]
            && ["a"][1..] == []
    ensures ["a"] <= ["a", "b"] <= ["a", "b", "l"] && !(["a", "b"] <= ["a"])
  {
    assert ["a", "b"] == ["a", "b", "l"][..2] && ["a"] == ["a", "b"][..1];
  }

  lemma {:induction false} SetFirst(outer: nat, inner: Obj, first: Obj, last: Obj, changed: bool, born: nat,
                                    mentions: Mentions)
    requires first.DictObj? && Show(first) != Null
    ensures StepShared(
              Progress(map[], [first, Load(Atom("x"), 1), last], changed), AppendBetweenSets(), 0, born, mentions)
         == Ok(Stage(map["a" := first], first, last))
  {
    Segments();
    var ops, p := AppendBetweenSets(), Progress(map[], [first, Load(Atom("x"), 1), last], changed);
    var none: map<string, Obj> := map[];
    assert EditObj(none, ["a"], ops[0], first, born, mentions) == Ok((map["a" := first], true));
    var synced := SyncAll(p.objs, ops, ops[0], none, map["a" := first]);
    assert synced[0] == first && synced[1] == p.objs[1] && synced[2] == last;
    assert synced == p.objs;
  }

  /** The append makes `b` and its array inside the value that was set. */
  lemma {:induction false} AppendMakes(born: nat, bare: Obj, mentions: Mentions)
    requires bare == DictObj(2, map[])
    ensures var outer := DictObj(0, map[]);
            StepShared(Stage(map["a" := outer], outer, bare), AppendBetweenSets(), 1, born, mentions)
            == Ok(Stage(map["a" := Holding(0, Listed(born, born))], Holding(0, Listed(born, born)), bare))
  {
    Segments();
    var ops, outer, none: map<string, Obj> := AppendBetweenSets(), DictObj(0, map[]), map[];
    var x, after := Load(Atom("x"), 1), Holding(0, Listed(born, born));
    assert EditObj(none, ["l"], ops[1], x, born, mentions) == Ok((Listed(born, born).kids, true));
    assert EditObj(none, ["b", "l"], ops[1], x, born, mentions) == Ok((after.kids, true));
    OneKey("a", outer, after);
    var was, now := map["a" := outer], map["a" := after];
    assert Show(outer) != Null;
    assert EditObj(was, ops[1].path, ops[1], x, born, mentions) == Ok((now, true));
    var synced := SyncAll([outer, x, bare], ops, ops[1], was, now);
    assert synced[0] == SyncHere(outer, ops[1], ["b", "l"], outer, after) == after;
    assert synced[2] == SyncAt(bare, ["a", "b"], ops[1], ops[1].path, was, now)
      == SyncAt(bare, ["b"], ops[1], ["b", "l"], outer.kids, after.kids) == bare;
    assert synced == [after, x, bare];
  }

  /** The append makes its array inside the last operation's value, which is there already. */
  lemma {:induction false} AppendReaches(born: nat, bare: Obj, mentions: Mentions)
    requires bare == DictObj(2, map[])
    ensures var outer, after, reached := Holding(0, bare), Holding(0, Listed(2, born)), Listed(2, born);
            StepShared(Stage(map["a" := outer], outer, bare), AppendBetweenSets(), 1, born, mentions)
            == Ok(Stage(map["a" := after], after, reached))
  {
    Segments();
    var ops, outer, none: map<string, Obj> := AppendBetweenSets(), Holding(0, bare), map[];
    var x, reached := Load(Atom("x"), 1), Listed(2, born);
    var after := Holding(0, reached);
    assert EditObj(none, ["l"], ops[1], x, born, mentions) == Ok((reached.kids, true));
    OneKey("b", bare, reached);
    assert Show(bare) != Null && Show(outer) != Null;
    assert EditObj(outer.kids, ["b", "l"], ops[1], x, born, mentions) == Ok((after.kids, true));
    OneKey("a", outer, after);
    var was, now := map["a" := outer], map["a" := after];
    assert EditObj(was, ops[1].path, ops[1], x, born, mentions) == Ok((now, true));
    var synced := SyncAll([outer, x, bare], ops, ops[1], was, now);
    assert synced[0] == SyncHere(outer, ops[1], ["b", "l"], outer, after) == after;
    assert synced[2] == SyncAt(bare, ["a", "b"], ops[1], ops[1].path, was, now)
      == SyncAt(bare, ["b"], ops[1], ["b", "l"], outer.kids, after.kids);
    assert synced[2] == SyncHere(bare, ops[1], ["l"], bare, reached) == reached;
    assert synced == [after, x, reached];
  }

  /** The last operation puts its value in the place of what the append made. */
  lemma {:induction false} SetReplaces(made: nat, born: nat, bare: Obj, mentions: Mentions)
    requires bare == DictObj(2, map[])
    ensures var outer, after := Holding(0, Listed(made, made)), Holding(0, bare);
            StepShared(Stage(map["a" := outer], outer, bare), AppendBetweenSets(), 2, born, mentions)
            == Ok(Stage(map["a" := after], after, bare))
  {
    Segments();
    ListedShows(made, made);
    var ops, outer, after := AppendBetweenSets(), Holding(0, Listed(made, made)), Holding(0, bare);
    var x := Load(Atom("x"), 1);
    OneKey("b", Listed(made, made), bare);
    assert Show(outer) != Null && Show(bare) == Dict(map[]);
    assert EditObj(outer.kids, ["b"], ops[2], bare, born, mentions) == Ok((after.kids, true));
    OneKey("a", outer, after);
    var was, now := map["a" := outer], map["a" := after];
    assert EditObj(was, ops[2].path, ops[2], bare, born, mentions) == Ok((now, true));
    var synced := SyncAll([outer, x, bare], ops, ops[2], was, now);
    assert synced[0] == SyncHere(outer, ops[2], ["b"], outer, after) == after;
    assert synced[2] == SyncAt(bare, ["a", "b"], ops[2], ops[2].path, was, now)
      == SyncAt(bare, ["b"], ops[2], ["b"], outer.kids, after.kids) == bare;
    assert synced == [after, x, bare];
  }

  /** The last operation finds its own value in place and does nothing. */
  lemma {:induction false} SetFindsItself(made: nat, born: nat, mentions: Mentions)
    ensures var reached := Listed(2, made);
            var p := Stage(map["a" := Holding(0, reached)], Holding(0, reached), reached);
            StepShared(p, AppendBetweenSets(), 2, born, mentions) == Ok(p)
  {
    Segments();
    ListedShows(2, made);
    var ops, reached := AppendBetweenSets(), Listed(2, made);
    var outer, x := Holding(0, reached), Load(Atom("x"), 1);
    OneKey("b", reached, reached);
    OneKey("a", outer, outer);
    assert Show(outer) != Null && Show(reached) != Null;
    assert EditObj(outer.kids, ["b"], ops[2], reached, born, mentions) == Ok((outer.kids, false));
    var kids := map["a" := outer];
    assert EditObj(kids, ops[2].path, ops[2], reached, born, mentions) == Ok((kids, false));
    var synced := SyncAll([outer, x, reached], ops, ops[2], kids, kids);
    assert synced[0] == SyncHere(outer, ops[2], ["b"], outer, outer) == outer;
    assert synced[2] == SyncAt(reached, ["a", "b"], ops[2], ops[2].path, kids, kids)
      == SyncAt(reached, ["b"], ops[2], ["b"], outer.kids, outer.kids) == reached;
    assert synced == [outer, x, reached];
  }

  lemma {:induction false} RunThree(p0: Progress, p1: Progress, p2: Progress, p3: Progress, base: nat,
                                    mentions: Mentions)
    requires |p0.objs| == 3 == |p1.objs| == |p2.objs|
    requires var ops := AppendBetweenSets();
             StepShared(p0, ops, 0, base + 1, mentions) == Ok(p1)
               && StepShared(p1, ops, 1, base + 2, mentions) == Ok(p2)
             && StepShared(p2, ops, 2, base + 3, mentions) == Ok(p3)
    ensures RunFrom(p0, AppendBetweenSets(), 0, base, mentions) == Ok(p3)
  {
    var ops := AppendBetweenSets();
    assert RunFrom(p3, ops, 3, base, mentions) == Ok(p3);
    assert RunFrom(p2, ops, 2, base, mentions) == Ok(p3);
    assert RunFrom(p1, ops, 1, base, mentions) == Ok(p3);
  }

  lemma {:induction false} FirstRound(mentions: Mentions)
    ensures var ops, bare := AppendBetweenSets(), DictObj(2, map[]);
            Attempt(Dict(map[]), ops, Declared(ops), mentions)
              == Ok(Stage(map["a" := Holding(0, bare)], Holding(0, bare), bare))
  {
    var ops, bare, plain, none: map<string, Obj> := AppendBetweenSets(), DictObj(2, map[]), DictObj(0, map[]), map[];
    var p0, made := Start(Dict(map[]), Declared(ops)), Holding(0, Listed(5, 5));
    assert p0 == Progress(none, [plain, Load(Atom("x"), 1), bare], false);
    SetFirst(0, bare, plain, bare, false, 4, mentions);
    AppendMakes(5, bare, mentions);
    SetReplaces(5, 6, bare, mentions);
    RunThree(p0, Stage(map["a" := plain], plain, bare), Stage(map["a" := made], made, bare),
             Stage(map["a" := Holding(0, bare)], Holding(0, bare), bare), 3, mentions);
  }

  lemma {:induction false} SecondRound(mentions: Mentions)
    ensures var bare, reached := DictObj(2, map[]), Listed(2, 9);
            Attempt(Dict(map[]), AppendBetweenSets(), Values([Holding(0, bare), Load(Atom("x"), 1), bare], 7), mentions)
            == Ok(Stage(map["a" := Holding(0, reached)], Holding(0, reached), reached))
  {
    var ops, bare, reached, none: map<string, Obj> := AppendBetweenSets(), DictObj(2, map[]), Listed(2, 9), map[];
    var q0 := Start(Dict(map[]), Values([Holding(0, bare), Load(Atom("x"), 1), bare], 7));
    assert q0 == Progress(none, [Holding(0, bare), Load(Atom("x"), 1), bare], false);
    SetFirst(0, bare, Holding(0, bare), bare, false, 8, mentions);
    AppendReaches(9, bare, mentions);
    SetFindsItself(9, 10, mentions);
    var q2 := Stage(map["a" := Holding(0, reached)], Holding(0, reached), reached);
    RunThree(q0, Stage(map["a" := Holding(0, bare)], Holding(0, bare), bare), q2, q2, 7, mentions);
  }

  lemma {:induction false} ShowSingle(key: string, inner: Obj)
    ensures ShowKids(map[key := inner]) == map[key := Show(inner)]
  {}

  lemma {:induction false} KidsShow(inner: Obj)
    ensures Dict(ShowKids(map["a" := Holding(0, inner)])) == Dict(map["a" := Dict(map["b" := Show(inner)])])
  {
    ShowDict(0, map["b" := inner]);
    ShowSingle("b", inner);
    ShowSingle("a", Holding(0, inner));
  }

  lemma {:induction false} RetryOfThree(mentions: Mentions)
    ensures Retry([Dict(map[])], Dict(map[]), AppendBetweenSets(), mentions)
         == Some(Dict(ShowKids(map["a" := Holding(0, Listed(2, 9))])))
  {
    FirstRound(mentions);
    OneAttempt(Dict(map[]), AppendBetweenSets(), mentions);
    SecondRound(mentions);
  }

  lemma {:induction false} DeclaredThree(mentions: Mentions)
    ensures ApplyAll(Dict(map[]), AppendBetweenSets(), mentions)
            == Ok((Dict(ShowKids(map["a" := Holding(0, DictObj(2, map[]))])), true))
  {
    FirstRound(mentions);
    DeclaredIsPristine(AppendBetweenSets());
    FirstAttemptIsDeclared(Dict(map[]), AppendBetweenSets(), Declared(AppendBetweenSets()), mentions);
  }

  lemma {:induction false} NoneDoubles(mentions: Mentions)
    requires mentions("x", Atom("x"))
    ensures var ops := AppendBetweenSets(); forall i, j :: 0 <= i < j < 3 ==> !Doubles(ops[i], ops[j], mentions)
  {}

  /**
   * Looking at the operations two by two is not enough: here every append recognises its own work, but a first attempt
   * leaves the last value inside the first one, where the append of the retry reaches it before its own turn comes.
   */
  lemma {:induction false} ThreeOperationsShare(mentions: Mentions)
    requires mentions("x", Atom("x"))
    ensures var ops, empty := AppendBetweenSets(), Dict(map[]);
            && (forall i, j :: 0 <= i < j < 3 ==> !Doubles(ops[i], ops[j], mentions))
            && ApplyAll(empty, ops, mentions).Ok?
            && ApplyAll(empty, ops, mentions).value.0 == Dict(map["a" := Dict(map["b" := Dict(map[])])])
            && Retry([empty], empty, ops, mentions)
               == Some(Dict(map["a" := Dict(map["b" := Dict(map["l" := List([Atom("x")])])])]))
  {
    NoneDoubles(mentions);
    RetryOfThree(mentions);
    DeclaredThree(mentions);
    ListedShows(2, 9);
    KidsShow(DictObj(2, map[]));
    KidsShow(Listed(2, 9));
    assert Show(DictObj(2, map[])) == Dict(map[]);
  }
}
