/**
 * What sharing changes: a value set before and reached into later is edited along with the tree, so its own check
 * passes, and a retry starts from the edited value.
 */
module ConfigRetry {
  import opened Wrappers
  import opened JsonTree
  import opened ConfigEdit
  import opened ConfigDiffTheorems
  import opened ConfigApplyTheorems
  import opened ConfigReapply
  import opened ConfigSharing
  import opened ConfigSharingTheorems

  function ObjAt(kids: map<string, Obj>, path: Path): Option<Obj>
    requires path != []
    decreases |path|
  {
    var next := Lookup(kids, path[0]);
    if |path| == 1 then next
    else if next.Some? && next.value.DictObj? then ObjAt(next.value.kids, path[1..])
    else None
  }

  lemma {:induction false} ObjAtShows(kids: map<string, Obj>, path: Path)
    requires path != [] && AllProper(kids)
    ensures ShowOption(ObjAt(kids, path)) == Subtree(Dict(ShowKids(kids)), path)
    decreases |path|
  {
    ShowPut(kids, path[0], None);
    SubtreeStep(ShowKids(kids), path);
    if path[0] in kids {
      var o := kids[path[0]];
      if |path| > 1 && o.DictObj? {
        ShowDict(o.birth, o.kids);
        ObjAtShows(o.kids, path[1..]);
      }
    }
  }

  // ---- Attached values follow the tree ----

  /** The edited operation's object sits in the tree after a `set` that changed anything. */
  lemma {:induction false} SetAttaches(kids: map<string, Obj>, path: Path, op: Op, value: Obj, born: nat,
                                       mentions: Mentions)
    requires path != [] && op.Set? && EditObj(kids, path, op, value, born, mentions).Ok?
    requires ShowOption(ObjAt(kids, path)).GetOr(Null) != Show(value)
    ensures ObjAt(EditObj(kids, path, op, value, born, mentions).value.0, path) == Some(value)
    decreases |path|
  {
    var next := Lookup(kids, path[0]);
    if |path| > 1 {
      if ShowOption(next).GetOr(Null) == Null {
        assert ObjAt(map[], path[1..]) == None;
        assert next.Some? ==> !next.value.DictObj?;
        SetAttaches(map[], path[1..], op, value, born, mentions);
      } else {
        SetAttaches(next.value.kids, path[1..], op, value, born, mentions);
      }
    }
  }

  lemma ObjBelow(kids: map<string, Obj>, at: Path, o: Obj)
    requires |at| > 1
    ensures ObjAt(kids[at[0] := o], at) == if o.DictObj? then ObjAt(o.kids, at[1..]) else None
    ensures at[0] in kids ==> ObjAt(kids, at) == if kids[at[0]].DictObj? then ObjAt(kids[at[0]].kids, at[1..]) else None
    ensures at[0] !in kids ==> ObjAt(kids, at) == None
  {}

  /** Edits elsewhere leave the object where it is. */
  lemma {:induction false} ObjFrame(kids: map<string, Obj>, path: Path, op: Op, value: Obj, born: nat,
                                    mentions: Mentions, at: Path)
    requires path != [] && at != [] && EditObj(kids, path, op, value, born, mentions).Ok?
    requires Incomparable(at, path)
    ensures ObjAt(EditObj(kids, path, op, value, born, mentions).value.0, at) == ObjAt(kids, at)
    decreases |path|
  {
    if at[0] == path[0] {
      assert path == [path[0]] + path[1..] && at == [at[0]] + at[1..];
      var next := Lookup(kids, path[0]);
      if ShowOption(next).GetOr(Null) == Null {
        if op.Creates() {
          ObjFrame(map[], path[1..], op, value, born, mentions, at[1..]);
          ObjBelow(kids, at, DictObj(born, EditObj(map[], path[1..], op, value, born, mentions).value.0));
        }
      } else if next.value.DictObj? {
        ObjFrame(next.value.kids, path[1..], op, value, born, mentions, at[1..]);
        ObjBelow(
          kids, at, DictObj(next.value.birth, EditObj(next.value.kids, path[1..], op, value, born, mentions).value.0));
      }
    } else {
      ObjElsewhere(kids, EditObj(kids, path, op, value, born, mentions).value.0, path[0], at);
    }
  }

  lemma ObjElsewhere(kids: map<string, Obj>, after: map<string, Obj>, key: string, at: Path)
    requires at != [] && at[0] != key && kids - {key} == after - {key}
    ensures ObjAt(after, at) == ObjAt(kids, at)
  {
    assert Lookup(kids - {key}, at[0]) == Lookup(kids, at[0]) && Lookup(after - {key}, at[0]) == Lookup(after, at[0]);
  }

  /** An operation below an attached value, or appending to it, edits the value with the tree. */
  lemma {:induction false} AttachedFollows(kids: map<string, Obj>, at: Path, path: Path, op: Op, value: Obj, born: nat,
                                           mentions: Mentions, held: Obj)
    requires at != [] && at <= path && !op.Other? && EditObj(kids, path, op, value, born, mentions).Ok?
    requires ObjAt(kids, at) == Some(held) && Show(held) != Null
    requires at == path ==> op.AppendUnique?
    ensures var now := EditObj(kids, path, op, value, born, mentions).value.0;
            ObjAt(now, at) == Some(SyncAt(held, at, op, path, kids, now))
    decreases |path|
  {
    var next, now := Lookup(kids, path[0]), EditObj(kids, path, op, value, born, mentions).value.0;
    assert path == [path[0]] + path[1..] && at == [at[0]] + at[1..];
    if |at| == 1 {
      assert next == Some(held) && path[0] in now;
      if |path| > 1 && held.DictObj? {
        assert now[path[0]].DictObj? && now[path[0]].birth == held.birth;
      }
    } else {
      AttachedFollows(next.value.kids, at[1..], path[1..], op, value, born, mentions, held);
    }
  }

  /** `b` leaves the object at `a`'s path in place: it aims elsewhere, below it, or appends to it. */
  predicate Spares(b: Op, a: Op, held: Obj)
    requires a.Set?
  {
    && !b.Other? && (b.path <= a.path ==> b.path == a.path && b.AppendUnique?)
    && (a.path <= b.path ==> Show(held) != Null)
  }

  predicate Attached(p: Progress, ops: seq<Op>, i: nat)
    requires |p.objs| == |ops| && i < |ops| && ops[i].Set?
  {
    ops[i].path != [] && ObjAt(p.kids, ops[i].path) == Some(p.objs[i])
  }

  lemma {:induction false} StaysAttached(p: Progress, ops: seq<Op>, i: nat, j: nat, born: nat, mentions: Mentions)
    requires |p.objs| == |ops| && i < |ops| && ops[i].Set? && j < |ops| && Attached(p, ops, i)
    requires Spares(ops[j], ops[i], p.objs[i]) && StepShared(p, ops, j, born, mentions).Ok?
    ensures Attached(StepShared(p, ops, j, born, mentions).value, ops, i)
  {
    var a, b := ops[i], ops[j];
    if a.path <= b.path {
      AttachedFollows(p.kids, a.path, b.path, b, p.objs[j], born, mentions, p.objs[i]);
    } else {
      ObjFrame(p.kids, b.path, b, p.objs[j], born, mentions, a.path);
    }
  }

  lemma {:induction false} SyncKeepsKind(held: Obj, owner: Op, op: Op, was: map<string, Obj>, now: map<string, Obj>)
    requires !op.Other? && Show(held) != Null
    ensures Show(SyncValue(held, owner, op, was, now)) != Null
  {
    if owner.Set? && owner.path != [] && owner.path <= op.path {
      SyncAtKeepsKind(held, owner.path, op, op.path, was, now);
    }
  }

  lemma {:induction false} SyncAtKeepsKind(held: Obj, at: Path, op: Op, path: Path, was: map<string, Obj>,
                                           now: map<string, Obj>)
    requires at != [] && at <= path && Show(held) != Null
    ensures Show(SyncAt(held, at, op, path, was, now)) != Null
    decreases |at|
  {
    var k := at[0];
    if |at| > 1 && k in was && k in now && was[k].DictObj? && now[k].DictObj? {
      SyncAtKeepsKind(held, at[1..], op, path[1..], was[k].kids, now[k].kids);
    }
  }

  /** No operation from `j` on replaces what operation `i` set. */
  predicate SparedFrom(ops: seq<Op>, i: nat, j: nat)
    requires i < |ops| && ops[i].Set?
  {
    forall k :: j <= k < |ops| && !ops[k].Other? && ops[k].path <= ops[i].path ==>
      ops[k].path == ops[i].path && ops[k].AppendUnique?
  }

  lemma {:induction false} RunStaysAttached(p: Progress, ops: seq<Op>, i: nat, j: nat, base: nat, mentions: Mentions)
    requires |p.objs| == |ops| && i < |ops| && ops[i].Set? && j <= |ops| && Attached(p, ops, i)
             && Show(p.objs[i]) != Null
    requires SparedFrom(ops, i, j) && RunFrom(p, ops, j, base, mentions).Ok?
    ensures Attached(RunFrom(p, ops, j, base, mentions).value, ops, i)
    decreases |ops| - j
  {
    if j < |ops| {
      var step := StepShared(p, ops, j, base + 1 + j, mentions).value;
      StaysAttached(p, ops, i, j, base + 1 + j, mentions);
      SyncKeepsKind(p.objs[i], ops[i], ops[j], p.kids, step.kids);
      RunStaysAttached(step, ops, i, j + 1, base, mentions);
    }
  }

  /**
   * A `set` that changed something and is not replaced later passes its own check in every attempt, whatever later
   * operations did to the value it set: the check compares the tree with the value edited along with it.
   */
  lemma {:induction false} SetPassesItsCheck(p: Progress, ops: seq<Op>, i: nat, base: nat, mentions: Mentions)
    requires |p.objs| == |ops| && ProperObjs(p.objs) && AllProper(p.kids)
    requires i < |ops| && ops[i].Set? && SparedFrom(ops, i, i + 1) && RunFrom(p, ops, i, base, mentions).Ok?
    requires Show(p.objs[i]) != Null && Subtree(Dict(ShowKids(p.kids)), ops[i].path) != Some(Show(p.objs[i]))
    ensures var end := RunFrom(p, ops, i, base, mentions).value;
            Subtree(Dict(ShowKids(end.kids)), ops[i].path) == Some(Show(end.objs[i]))
  {
    var op, step := ops[i], StepShared(p, ops, i, base + 1 + i, mentions).value;
    ObjAtShows(p.kids, op.path);
    SetAttaches(p.kids, op.path, op, p.objs[i], base + 1 + i, mentions);
    UnreachedAt(p.objs[i], op.path, op, op.path, p.kids, step.kids);
    RunStaysAttached(step, ops, i, i + 1, base, mentions);
    var end := RunFrom(p, ops, i, base, mentions).value;
    RunProper(p, ops, i, base, mentions);
    ObjAtShows(end.kids, op.path);
  }

  lemma {:induction false} RunProper(p: Progress, ops: seq<Op>, j: nat, base: nat, mentions: Mentions)
    requires |p.objs| == |ops| && ProperObjs(p.objs) && AllProper(p.kids) && j <= |ops|
             && RunFrom(p, ops, j, base, mentions).Ok?
    ensures AllProper(RunFrom(p, ops, j, base, mentions).value.kids)
    decreases |ops| - j
  {
    if j < |ops| {
      StepMirrors(p, ops, j, base + 1 + j, mentions);
      RunProper(StepShared(p, ops, j, base + 1 + j, mentions).value, ops, j + 1, base, mentions);
    }
  }

  // ---- On values: setting a container and editing inside it ----

  /** What `op` makes of a container it reaches along `rest`. */
  function Inner(v: Json, rest: Path, op: Op, mentions: Mentions): Result<Json, EditError> {
    if rest == [] then
      (if op.AppendUnique? && v.List? then
         Ok(if AnyMentions(v.items, op.uniqueBySubstring, mentions) then v else List(v.items + [op.value]))
       else Err(Refused))
    else if v.Dict? then
      var inner :- EditAt(v.entries, rest, op, mentions);
      Ok(Dict(inner.0))
    else Err(Refused)
  }

  predicate Enterable(v: Json, rest: Path, op: Op) {
    if rest == [] then op.AppendUnique? && v.List? else v.Dict?
  }

  lemma {:induction false} SetThenBelow(entries: map<string, Json>, path: Path, set_: Op, rest: Path, op: Op,
                                        mentions: Mentions)
    requires path != [] && set_.Set? && Enterable(set_.value, rest, op) && EditAt(entries, path, set_, mentions).Ok?
    ensures var inner, two :=
              Inner(set_.value, rest, op, mentions),
              EditAt(EditAt(entries, path, set_, mentions).value.0, path + rest, op, mentions);
            && (two.Ok? <==> inner.Ok?) && (two.Err? ==> two.error == inner.error)
            && (inner.Ok? ==> EditAt(entries, path, WithValue(set_, inner.value), mentions).Ok?
                              && two.value.0 == EditAt(entries, path, WithValue(set_, inner.value), mentions).value.0)
    decreases |path|
  {
    var next, inner := Lookup(entries, path[0]), Inner(set_.value, rest, op, mentions);
    assert (path + rest)[0] == path[0] && (path + rest)[1..] == path[1..] + rest;
    if |path| == 1 {
      assert path[1..] + rest == rest;
      SetKeyThenBelow(entries, path[0], set_, rest, op, mentions);
      assert path == [path[0]] && path + rest == [path[0]] + rest;
    } else {
      var inside := if next.GetOr(Null) == Null then map[] else next.value.entries;
      SetThenBelow(inside, path[1..], set_, rest, op, mentions);
      SetOneDeeper(entries, path, set_, rest, op, inside, mentions);
    }
  }

  lemma {:induction false} SetOneDeeper(entries: map<string, Json>, path: Path, set_: Op, rest: Path, op: Op,
                                        inside: map<string, Json>, mentions: Mentions)
    requires |path| > 1 && set_.Set? && EditAt(entries, path, set_, mentions).Ok?
    requires inside
             == if Lookup(entries, path[0]).GetOr(Null) == Null then map[] else Lookup(entries, path[0]).value.entries
    ensures EditAt(inside, path[1..], set_, mentions).Ok?
    ensures var one, below :=
              EditAt(entries, path, set_, mentions).value.0, EditAt(inside, path[1..], set_, mentions).value.0;
            && one == entries[path[0] := Dict(below)]
            && EditAt(one, path + rest, op, mentions)
               == (var two := EditAt(below, path[1..] + rest, op, mentions);
                   if two.Err? then Err(two.error) else Ok((entries[path[0] := Dict(two.value.0)], two.value.1)))
  {
    assert (path + rest)[0] == path[0] && (path + rest)[1..] == path[1..] + rest;
    var below := EditAt(inside, path[1..], set_, mentions).value.0;
    var two := EditAt(below, path[1..] + rest, op, mentions);
    if two.Ok? {
      assert entries[path[0] := Dict(below)][path[0] := Dict(two.value.0)] == entries[path[0] := Dict(two.value.0)];
    }
  }

  lemma {:induction false} SetKeyThenBelow(entries: map<string, Json>, key: string, set_: Op, rest: Path, op: Op,
                                           mentions: Mentions)
    requires set_.Set? && Enterable(set_.value, rest, op) && EditAt(entries, [key], set_, mentions).Ok?
    ensures var inner, two :=
              Inner(set_.value, rest, op, mentions),
              EditAt(EditAt(entries, [key], set_, mentions).value.0, [key] + rest, op, mentions);
            && (two.Ok? <==> inner.Ok?) && (two.Err? ==> two.error == inner.error)
            && (inner.Ok? ==> EditAt(entries, [key], WithValue(set_, inner.value), mentions).Ok?
                              && two.value.0 == EditAt(entries, [key], WithValue(set_, inner.value), mentions).value.0)
  {
    var one := EditAt(entries, [key], set_, mentions).value.0;
    assert one == entries[key := set_.value];
    assert ([key] + rest)[0] == key && ([key] + rest)[1..] == rest;
    if rest == [] { assert [key] + rest == [key]; }
  }

  // ---- Two operations, two attempts ----

  /** What an attempt on `t` makes of it after attempts on `ts` in the same process; None when one of them fails. */
  function Retry(ts: seq<Json>, t: Json, ops: seq<Op>, mentions: Mentions): Option<Json> {
    var vs := AfterAttempts(ts, ops, mentions);
    if vs.None? || !t.Dict? then None
    else
      var run := Attempt(t, ops, vs.value, mentions);
      if run.Err? then None else Some(Dict(ShowKids(run.value.kids)))
  }

  /** What the declared operations make of `t`. */
  function AsDeclared(t: Json, ops: seq<Op>, mentions: Mentions): Option<Json>
    requires t.Dict?
  {
    var all := ApplyAll(t, ops, mentions);
    if all.Err? then None else Some(all.value.0)
  }

  lemma {:induction false} ApplyTwo(t: Json, a: Op, b: Op, mentions: Mentions)
    requires t.Dict?
    ensures ApplyAll(t, [a, b], mentions).Ok? <==>
            ApplyOp(t, a, mentions).Ok? && ApplyOp(ApplyOp(t, a, mentions).value.0, b, mentions).Ok?
    ensures ApplyAll(t, [a, b], mentions).Ok? ==>
            ApplyAll(t, [a, b], mentions).value.0 == ApplyOp(ApplyOp(t, a, mentions).value.0, b, mentions).value.0
  {
    assert ApplyAll(t, [], mentions) == Ok((t, false));
    ApplyAllSnoc(t, [], a, mentions);
    assert [] + [a] == [a] && [a] + [b] == [a, b];
    if ApplyAll(t, [a], mentions).Ok? {
      ApplyAllSnoc(t, [a], b, mentions);
    } else {
      assert [a, b][..1] == [a];
      ApplyAllFails(t, [a, b], 1, mentions);
    }
  }

  /** Setting a container and then editing inside it is setting the edited container. */
  lemma {:induction false} PairIsSetInner(t: Json, a: Op, b: Op, mentions: Mentions)
    requires t.Dict? && Reaches(a, b) && a.path != [] && ApplyOp(t, a, mentions).Ok?
             && (b.RemoveBySubstring? ==> b.substring != "")
    ensures var inner := Inner(a.value, b.path[|a.path|..], b, mentions);
            && (ApplyAll(t, [a, b], mentions).Ok? <==> inner.Ok?)
            && (inner.Ok? ==> inner.value != Null && EditAt(t.entries, a.path, WithValue(a, inner.value), mentions).Ok?
                              && ApplyAll(t, [a, b], mentions).value.0
                                 == Dict(EditAt(t.entries, a.path, WithValue(a, inner.value), mentions).value.0))
  {
    var rest := b.path[|a.path|..];
    assert b.path == a.path + rest;
    assert rest == [] <==> a.path == b.path;
    ApplyTwo(t, a, b, mentions);
    SetThenBelow(t.entries, a.path, a, rest, b, mentions);
  }

  lemma {:induction false} SetReadsBack(entries: map<string, Json>, path: Path, set_: Op, mentions: Mentions)
    requires path != [] && set_.Set? && set_.value != Null && EditAt(entries, path, set_, mentions).Ok?
    ensures Subtree(Dict(EditAt(entries, path, set_, mentions).value.0), path) == Some(set_.value)
  {
    EditTarget(entries, path, set_, mentions);
  }

  lemma {:induction false} SetSameIsNoEdit(kids: map<string, Obj>, path: Path, op: Op, value: Obj, born: nat,
                                           mentions: Mentions)
    requires path != [] && op.Set? && Show(value) != Null && EditObj(kids, path, op, value, born, mentions).Ok?
    requires ShowOption(ObjAt(kids, path)) == Some(Show(value))
    ensures EditObj(kids, path, op, value, born, mentions).value.0 == kids
    decreases |path|
  {
    var next := Lookup(kids, path[0]);
    if |path| > 1 {
      SetSameIsNoEdit(next.value.kids, path[1..], op, value, born, mentions);
      assert kids[path[0] := DictObj(next.value.birth, next.value.kids)] == kids;
    }
  }

  function RestOf(a: Op, b: Op): Path
    requires Reaches(a, b)
  {
    b.path[|a.path|..]
  }

  lemma {:induction false} RunTwo(p: Progress, ops: seq<Op>, base: nat, mentions: Mentions)
    requires |ops| == 2 == |p.objs|
    ensures var p1 := StepShared(p, ops, 0, base + 1, mentions);
            RunFrom(p, ops, 0, base, mentions)
            == if p1.Err? then p1 else StepShared(p1.value, ops, 1, base + 2, mentions)
  {
    var p1 := StepShared(p, ops, 0, base + 1, mentions);
    if p1.Ok? {
      var p2 := StepShared(p1.value, ops, 1, base + 2, mentions);
      assert RunFrom(p1.value, ops, 1, base, mentions)
          == if p2.Err? then p2 else RunFrom(p2.value, ops, 2, base, mentions);
    }
  }

  /** The values of two operations between attempts: the second as declared, and both older than the next copy of the
      file. */
  predicate PairValues(vs: Values, b: Op) {
    |vs.objs| == 2 && vs.next > 1 && Proper(vs.objs[0]) && BornIn(vs.objs[0], 0, vs.next)
      && vs.objs[1] == Load(ValueOf(b), 1)
  }

  lemma {:induction false} DeclaredPair(a: Op, b: Op)
    requires a.Set?
    ensures PairValues(Declared([a, b]), b) && Show(Declared([a, b]).objs[0]) == a.value
  {
    LoadShows(a.value, 0);
    LoadBorn(a.value, 0);
    BornWider(Load(a.value, 0), 0, 0, 2);
  }

  /** The first step attaches the first value, if at all, and edits neither. */
  lemma {:induction false} AfterSet(t: Json, a: Op, b: Op, vs: Values, mentions: Mentions)
    requires t.Dict? && a.Set? && PairValues(vs, b) && Attempt(t, [a, b], vs, mentions).Ok?
    ensures var ops, p0 := [a, b], Start(t, vs);
            var p1 := StepShared(p0, ops, 0, vs.next + 1, mentions);
            && !b.Other? && a.path != [] && b.path != [] && p1.Ok?
            && StepShared(p1.value, ops, 1, vs.next + 2, mentions).Ok?
            && Attempt(t, ops, vs, mentions) == StepShared(p1.value, ops, 1, vs.next + 2, mentions)
            && p1.value.objs == vs.objs && AllProper(p0.kids) && Dict(ShowKids(p0.kids)) == t
            && forall k :: k in p0.kids ==> OnlyBorn(p0.kids[k], vs.next)
  {
    var ops := [a, b];
    var p0 := Start(t, vs);
    LoadedTree(t, vs.next);
    LoadBorn(t, vs.next);
    OnlyBornElsewhere(Load(t, vs.next), vs.next, 1);
    RunTwo(p0, ops, vs.next, mentions);
    var p1 := StepShared(p0, ops, 0, vs.next + 1, mentions).value;
    UnreachedAt(p0.objs[0], a.path, a, a.path, p0.kids, p1.kids);
    SyncPassesBy(p0.objs[1], b, 1, a, p0.kids, p1.kids);
  }

  lemma {:induction false} FirstStaysOlder(p0: Progress, p1: Progress, p2: Progress, a: Op, b: Op, vs: Values,
                                           mentions: Mentions)
    requires a.Set? && PairValues(vs, b) && |p0.objs| == 2 == |p1.objs| && p0.objs == vs.objs == p1.objs
    requires StepShared(p0, [a, b], 0, vs.next + 1, mentions) == Ok(p1)
             && StepShared(p1, [a, b], 1, vs.next + 2, mentions) == Ok(p2)
    requires KidsBornIn(p0.kids, 0, vs.next + 3)
    ensures BornIn(p2.objs[0], 0, vs.next + 3)
  {
    var n := vs.next + 3;
    BornLonger(vs.objs[0], 0, vs.next, n);
    LoadBorn(ValueOf(b), 1);
    BornWider(vs.objs[1], 1, 0, n);
    EditBornIn(p0.kids, a.path, a, vs.objs[0], vs.next + 1, mentions, 0, n);
    EditBornIn(p1.kids, b.path, b, vs.objs[1], vs.next + 2, mentions, 0, n);
    if a.path <= b.path { SyncBornIn(p1.objs[0], a.path, b, b.path, p1.kids, p2.kids, 0, n); }
  }

  lemma {:induction false} SecondUntouched(p1: Progress, a: Op, b: Op, born: nat, mentions: Mentions)
    requires |p1.objs| == 2 && p1.objs[1] == Load(ValueOf(b), 1) && StepShared(p1, [a, b], 1, born, mentions).Ok?
    ensures StepShared(p1, [a, b], 1, born, mentions).value.objs[1] == Load(ValueOf(b), 1)
  {
    var p2 := StepShared(p1, [a, b], 1, born, mentions).value;
    if b.Set? { UnreachedAt(p1.objs[1], b.path, b, b.path, p1.kids, p2.kids); }
  }

  lemma {:induction false} SecondKept(t: Json, a: Op, b: Op, vs: Values, mentions: Mentions)
    requires t.Dict? && a.Set? && PairValues(vs, b) && Attempt(t, [a, b], vs, mentions).Ok?
    ensures PairValues(After(vs, [a, b], Attempt(t, [a, b], vs, mentions).value.objs), b)
  {
    var ops := [a, b];
    AfterSet(t, a, b, vs, mentions);
    LoadShows(ValueOf(b), 1);
    var p0 := Start(t, vs);
    var p1 := StepShared(p0, ops, 0, vs.next + 1, mentions).value;
    forall k | k in p0.kids ensures BornIn(p0.kids[k], 0, vs.next + 3) {
      BornWider(p0.kids[k], vs.next, 0, vs.next + 3);
    }
    FirstStaysOlder(p0, p1, StepShared(p1, ops, 1, vs.next + 2, mentions).value, a, b, vs, mentions);
    SecondUntouched(p1, a, b, vs.next + 2, mentions);
    AttemptIsUsed(t, ops, vs, mentions);
  }

  /** An attempt leaves the first value as it found it, or edited inside by the second operation. */
  lemma {:induction false} AttemptLeaves(t: Json, a: Op, b: Op, vs: Values, mentions: Mentions)
    requires t.Dict? && a.Set? && PairValues(vs, b) && Attempt(t, [a, b], vs, mentions).Ok?
    ensures var before, after := Show(vs.objs[0]), Show(Attempt(t, [a, b], vs, mentions).value.objs[0]);
            var now := WithValue(a, before);
            && (after == before || (Reaches(now, b) && Inner(before, RestOf(now, b), b, mentions) == Ok(after)))
            && (Reaches(now, b) && Subtree(t, a.path) != Some(before) ==>
                  Inner(before, RestOf(now, b), b, mentions) == Ok(after))
  {
    var ops, now := [a, b], WithValue(a, Show(vs.objs[0]));
    AfterSet(t, a, b, vs, mentions);
    var p0 := Start(t, vs);
    var p1 := StepShared(p0, ops, 0, vs.next + 1, mentions).value;
    var p2 := StepShared(p1, ops, 1, vs.next + 2, mentions).value;
    if a.path <= b.path {
      if !Reaches(now, b) {
        UnreachedAt(p1.objs[0], a.path, b, b.path, p1.kids, p2.kids);
      } else if Subtree(t, a.path) == Some(Show(vs.objs[0])) {
        ObjAtShows(p0.kids, a.path);
        SetSameIsNoEdit(p0.kids, a.path, a, p0.objs[0], vs.next + 1, mentions);
        OlderAt(p1.objs[0], a.path, b, b.path, p1.kids, p2.kids, vs.next);
      } else {
        AttachedLeaves(t, a, b, vs, mentions);
      }
    }
  }

  lemma {:induction false} AttachedLeaves(t: Json, a: Op, b: Op, vs: Values, mentions: Mentions)
    requires t.Dict? && a.Set? && PairValues(vs, b) && Attempt(t, [a, b], vs, mentions).Ok?
    requires Reaches(WithValue(a, Show(vs.objs[0])), b) && Subtree(t, a.path) != Some(Show(vs.objs[0]))
    ensures var now := WithValue(a, Show(vs.objs[0]));
            Inner(now.value, RestOf(now, b), b, mentions) == Ok(Show(Attempt(t, [a, b], vs, mentions).value.objs[0]))
  {
    var ops, now := [a, b], WithValue(a, Show(vs.objs[0]));
    AfterSet(t, a, b, vs, mentions);
    LoadShows(ValueOf(b), 1);
    SetPassesItsCheck(Start(t, vs), ops, 0, vs.next, mentions);
    SecondUses(t, a, b, vs, mentions);
    ApplyTwo(t, now, b, mentions);
    PairIsSetInner(t, now, b, mentions);
    var inner := Inner(now.value, RestOf(now, b), b, mentions).value;
    SetReadsBack(t.entries, a.path, WithValue(now, inner), mentions);
  }

  /** An attempt applies the same second operation to whatever the first one is left with. */
  lemma {:induction false} SecondUses(t: Json, a: Op, b: Op, vs: Values, mentions: Mentions)
    requires t.Dict? && a.Set? && PairValues(vs, b) && !b.Other?
    ensures var run, pure :=
              Attempt(t, [a, b], vs, mentions), ApplyAll(t, [WithValue(a, Show(vs.objs[0])), b], mentions);
            && (run.Ok? <==> pure.Ok?) && (run.Ok? ==> Dict(ShowKids(run.value.kids)) == pure.value.0)
  {
    var ops, now := [a, b], WithValue(a, Show(vs.objs[0]));
    var p0 := Start(t, vs);
    LoadedTree(t, vs.next);
    LoadBorn(t, vs.next);
    OnlyBornElsewhere(Load(t, vs.next), vs.next, 1);
    LoadShows(ValueOf(b), 1);
    var p1 := StepShared(p0, ops, 0, vs.next + 1, mentions);
    StepMirrors(p0, ops, 0, vs.next + 1, mentions);
    RunTwo(p0, ops, vs.next, mentions);
    ApplyTwo(t, now, b, mentions);
    if p1.Ok? {
      SyncPassesBy(p0.objs[1], b, 1, a, p0.kids, p1.value.kids);
      assert WithValue(b, Show(p1.value.objs[1])) == b;
      StepMirrors(p1.value, ops, 1, vs.next + 2, mentions);
    }
  }

  // ---- When a retry computes what was declared ----

  lemma {:induction false} ChangedDiffers(entries: map<string, Json>, path: Path, op: Op, mentions: Mentions)
    requires path != [] && EditAt(entries, path, op, mentions).Ok? && EditAt(entries, path, op, mentions).value.1
    ensures EditAt(entries, path, op, mentions).value.0 != entries
    decreases |path|
  {
    var next, after := Lookup(entries, path[0]), EditAt(entries, path, op, mentions).value.0;
    if |path| == 1 {
      assert Lookup(after, path[0]) == EditLeaf(op, next, mentions).value;
    } else if next.GetOr(Null) == Null {
      assert Lookup(after, path[0]) != next;
    } else {
      ChangedDiffers(next.value.entries, path[1..], op, mentions);
      assert Lookup(after, path[0]) != next;
    }
  }

  /** Editing inside a container a second time changes nothing, unless an append fails to recognise its own work. */
  lemma {:induction false} InnerTwice(v: Json, rest: Path, op: Op, mentions: Mentions)
    requires Enterable(v, rest, op) && Inner(v, rest, op, mentions).Ok? && !op.Other?
    ensures var w := Inner(v, rest, op, mentions).value;
            && Enterable(w, rest, op) && Inner(w, rest, op, mentions).Ok?
            && (Inner(w, rest, op, mentions).value == w <==> Recognisable(op, Subtree(v, rest), mentions))
  {
    if rest == [] {
      AnyMentionsSnoc(v.items, op.value, op.uniqueBySubstring, mentions);
      assert |v.items + [op.value] + [op.value]| != |v.items + [op.value]|;
    } else {
      EditTwice(v.entries, rest, op, mentions);
      var after := EditAt(v.entries, rest, op, mentions).value.0;
      if EditAt(after, rest, op, mentions).value.1 { ChangedDiffers(after, rest, op, mentions); }
    }
  }

  /** `b` appends into the container that `a` sets, and recognises neither its value nor what it finds there. */
  predicate Doubles(a: Op, b: Op, mentions: Mentions) {
    && a.Set? && a.path != [] && Reaches(a, b) && b.AppendUnique?
    && Inner(a.value, RestOf(a, b), b, mentions).Ok? && !Recognisable(b, Subtree(a.value, RestOf(a, b)), mentions)
  }

  lemma {:induction false} SetOutcome(entries: map<string, Json>, path: Path, a: Op, b: Op, mentions: Mentions)
    requires path != [] && a.Set? && b.Set?
    ensures EditAt(entries, path, a, mentions).Ok? <==> EditAt(entries, path, b, mentions).Ok?
    ensures entries == map[] ==> EditAt(entries, path, a, mentions).Ok?
    decreases |path|
  {
    var next := Lookup(entries, path[0]);
    if |path| > 1 {
      if next.GetOr(Null) == Null {
        SetOutcome(map[], path[1..], a, b, mentions);
      } else if next.value.Dict? {
        SetOutcome(next.value.entries, path[1..], a, b, mentions);
      }
    }
  }

  lemma {:induction false} SettledPair(t2: Json, a: Op, b: Op, w: Json, mentions: Mentions)
    requires t2.Dict? && a.Set? && a.path != [] && Reaches(a, b) && Inner(a.value, RestOf(a, b), b, mentions) == Ok(w)
    requires Recognisable(b, Subtree(a.value, RestOf(a, b)), mentions) && (b.RemoveBySubstring? ==> b.substring != "")
    ensures AsDeclared(t2, [WithValue(a, w), b], mentions) == AsDeclared(t2, [a, b], mentions)
  {
    var aw := WithValue(a, w);
    assert b.path == a.path + RestOf(a, b);
    assert RestOf(a, b) == [] <==> a.path == b.path;
    InnerTwice(a.value, RestOf(a, b), b, mentions);
    ApplyTwo(t2, a, b, mentions);
    ApplyTwo(t2, aw, b, mentions);
    SetOutcome(t2.entries, a.path, a, aw, mentions);
    assert Reaches(aw, b) && RestOf(aw, b) == RestOf(a, b);
    if ApplyOp(t2, a, mentions).Ok? {
      PairIsSetInner(t2, a, b, mentions);
      PairIsSetInner(t2, aw, b, mentions);
      assert WithValue(aw, w) == WithValue(a, w);
    }
  }

  /** The first value between attempts, unless they double: as declared, or edited once. */
  predicate Settled(held: Json, a: Op, b: Op, mentions: Mentions)
    requires a.Set?
  {
    held == a.value || (Reaches(a, b) && Inner(a.value, RestOf(a, b), b, mentions) == Ok(held))
  }

  lemma {:induction false} AttemptSettles(t: Json, a: Op, b: Op, vs: Values, mentions: Mentions)
    requires t.Dict? && a.Set? && !Doubles(a, b, mentions) && PairValues(vs, b)
             && Settled(Show(vs.objs[0]), a, b, mentions)
    requires Attempt(t, [a, b], vs, mentions).Ok?
    ensures Settled(Show(Attempt(t, [a, b], vs, mentions).value.objs[0]), a, b, mentions)
  {
    AfterSet(t, a, b, vs, mentions);
    AttemptLeaves(t, a, b, vs, mentions);
    var before := Show(vs.objs[0]);
    if before == a.value {
      assert WithValue(a, before) == a;
    } else {
      assert b.path == a.path + RestOf(a, b) && (RestOf(a, b) == [] <==> a.path == b.path);
      InnerTwice(a.value, RestOf(a, b), b, mentions);
      assert RestOf(WithValue(a, before), b) == RestOf(a, b);
    }
  }

  lemma {:induction false} AttemptsSettle(ts: seq<Json>, a: Op, b: Op, mentions: Mentions)
    requires a.Set? && !Doubles(a, b, mentions) && AfterAttempts(ts, [a, b], mentions).Some?
    ensures var vs := AfterAttempts(ts, [a, b], mentions).value;
            PairValues(vs, b) && Settled(Show(vs.objs[0]), a, b, mentions)
    ensures ts != [] ==> a.path != [] && !b.Other? && (b.RemoveBySubstring? ==> b.substring != "")
  {
    if ts == [] {
      DeclaredPair(a, b);
    } else {
      var t, init := ts[|ts| - 1], ts[..|ts| - 1];
      AttemptsSettle(init, a, b, mentions);
      var vs := AfterAttempts(init, [a, b], mentions).value;
      AfterSet(t, a, b, vs, mentions);
      SecondKept(t, a, b, vs, mentions);
      AttemptSettles(t, a, b, vs, mentions);
    }
  }

  lemma {:induction false} UndoubledRetry(ts: seq<Json>, t: Json, a: Op, b: Op, mentions: Mentions)
    requires t.Dict? && a.Set? && !Doubles(a, b, mentions) && AfterAttempts(ts, [a, b], mentions).Some?
    ensures Retry(ts, t, [a, b], mentions) == AsDeclared(t, [a, b], mentions)
  {
    AttemptsSettle(ts, a, b, mentions);
    var vs := AfterAttempts(ts, [a, b], mentions).value;
    if ts == [] {
      DeclaredIsPristine([a, b]);
      FirstAttemptIsDeclared(t, [a, b], vs, mentions);
    } else {
      SecondUses(t, a, b, vs, mentions);
      var held := Show(vs.objs[0]);
      if held == a.value {
        assert WithValue(a, held) == a;
      } else {
        SettledPair(t, a, b, held, mentions);
      }
    }
  }

  /** What a first attempt on the empty file leaves of the first value. */
  lemma {:induction false} FirstOnEmpty(a: Op, b: Op, mentions: Mentions)
    requires a.Set? && a.path != [] && Reaches(a, b) && Inner(a.value, RestOf(a, b), b, mentions).Ok?
             && (b.RemoveBySubstring? ==> b.substring != "")
    ensures var run := Attempt(Dict(map[]), [a, b], Declared([a, b]), mentions);
            && run.Ok? && PairValues(After(Declared([a, b]), [a, b], run.value.objs), b)
            && Inner(a.value, RestOf(a, b), b, mentions) == Ok(Show(run.value.objs[0]))
  {
    var ops, empty := [a, b], Dict(map[]);
    SetOutcome(map[], a.path, a, a, mentions);
    PairIsSetInner(empty, a, b, mentions);
    DeclaredPair(a, b);
    assert WithValue(a, a.value) == a;
    SecondUses(empty, a, b, Declared(ops), mentions);
    SecondKept(empty, a, b, Declared(ops), mentions);
    AttemptLeaves(empty, a, b, Declared(ops), mentions);
  }

  lemma {:induction false} DoubledRetry(a: Op, b: Op, mentions: Mentions)
    requires Doubles(a, b, mentions)
    ensures var empty := Dict(map[]);
            && AfterAttempts([empty], [a, b], mentions).Some? && Retry([empty], empty, [a, b], mentions).Some?
            && AsDeclared(empty, [a, b], mentions).Some?
            && Retry([empty], empty, [a, b], mentions) != AsDeclared(empty, [a, b], mentions)
  {
    var ops, empty, rest := [a, b], Dict(map[]), RestOf(a, b);
    assert b.path == a.path + rest && (rest == [] <==> a.path == b.path);
    var w := Inner(a.value, rest, b, mentions).value;
    var aw := WithValue(a, w);
    InnerTwice(a.value, rest, b, mentions);
    SetOutcome(map[], a.path, a, aw, mentions);
    PairIsSetInner(empty, a, b, mentions);
    assert Reaches(aw, b) && RestOf(aw, b) == rest;
    PairIsSetInner(empty, aw, b, mentions);
    FirstOnEmpty(a, b, mentions);
    OneAttempt(empty, ops, mentions);
    SecondUses(empty, a, b, AfterAttempts([empty], ops, mentions).value, mentions);
    SetReadsBack(map[], a.path, aw, mentions);
    var ww := Inner(w, rest, b, mentions).value;
    assert WithValue(aw, ww) == WithValue(a, ww);
    SetReadsBack(map[], a.path, WithValue(a, ww), mentions);
  }

  lemma {:induction false} OneAttempt(t: Json, ops: seq<Op>, mentions: Mentions)
    requires t.Dict? && Attempt(t, ops, Declared(ops), mentions).Ok?
    ensures AfterAttempts([t], ops, mentions)
            == Some(After(Declared(ops), ops, Attempt(t, ops, Declared(ops), mentions).value.objs))
  {
    assert [t][..0] == [];
    assert AfterAttempts([], ops, mentions) == Some(Declared(ops));
  }

  /**
   * After any number of cancelled attempts, the next one in the same process makes of the content it finds what the two
   * declared operations make of it, and fails exactly when they fail, whatever all the contents are, if and only if the
   * second operation is not an append into the value the first one sets that recognises neither its own value nor what
   * it finds there.
   */
  lemma {:induction false} RetryAsDeclaredIff(a: Op, b: Op, mentions: Mentions)
    requires a.Set?
    ensures (forall ts: seq<Json>, t: Json :: t.Dict? && AfterAttempts(ts, [a, b], mentions).Some? ==>
               Retry(ts, t, [a, b], mentions) == AsDeclared(t, [a, b], mentions))
            <==> !Doubles(a, b, mentions)
  {
    if Doubles(a, b, mentions) {
      DoubledRetry(a, b, mentions);
      assert AfterAttempts([Dict(map[])], [a, b], mentions).Some? && Dict(map[]).Dict?;
    } else {
      forall ts: seq<Json>, t: Json | t.Dict? && AfterAttempts(ts, [a, b], mentions).Some?
        ensures Retry(ts, t, [a, b], mentions) == AsDeclared(t, [a, b], mentions)
      {
        UndoubledRetry(ts, t, a, b, mentions);
      }
    }
  }

  // ---- When any list computes what was declared ----

  /** The list computes what it declares in every attempt: nothing is shared, or two operations share and do not
      double. */
  predicate Settles(ops: seq<Op>, mentions: Mentions) {
    Apart(ops) || (|ops| == 2 && !Doubles(ops[0], ops[1], mentions))
  }

  lemma {:induction false} SettledRetry(ts: seq<Json>, t: Json, ops: seq<Op>, mentions: Mentions)
    requires t.Dict? && AfterAttempts(ts, ops, mentions).Some? && (ts == [] || Settles(ops, mentions))
    ensures Retry(ts, t, ops, mentions) == AsDeclared(t, ops, mentions)
  {
    var vs := AfterAttempts(ts, ops, mentions).value;
    if ts == [] || Apart(ops) {
      AttemptsPristine(ts, ops, mentions);
      FirstAttemptIsDeclared(t, ops, vs, mentions);
    } else {
      assert ops == [ops[0], ops[1]];
      UndoubledRetry(ts, t, ops[0], ops[1], mentions);
    }
  }
}
