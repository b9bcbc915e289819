/**
 * Applying the operations the way the program does, in place: a `set` puts the operation's own value object into the
 * tree, so a later operation that reaches below it edits that value too, and the next attempt starts from the edited
 * one.
 */
module ConfigSharing {
  import opened Wrappers
  import opened JsonTree
  import opened ConfigEdit

  // ---- Objects ----

  /**
   * A value as an object graph. Containers carry the birth they stem from (the copy of the file, one operation's
   * value, one step's new containers). Values are only ever attached at the path of their own operation, so two
   * containers are the same object exactly when birth and absolute path agree. Array elements are out of reach of
   * any path and stay plain.
   */
  datatype Obj =
    | Scalar(json: Json)
    | ListObj(birth: nat, items: seq<Json>)
    | DictObj(birth: nat, kids: map<string, Obj>)

  function Load(json: Json, birth: nat): Obj {
    match json
    case Dict(entries) => DictObj(birth, map k | k in entries :: Load(entries[k], birth))
    case List(items) => ListObj(birth, items)
    case _ => Scalar(json)
  }

  /** The tree an object reads as. */
  function Show(o: Obj): Json {
    match o
    case DictObj(_, kids) => Dict(map k | k in kids :: Show(kids[k]))
    case ListObj(_, items) => List(items)
    case Scalar(json) => json
  }

  lemma ShowDict(birth: nat, kids: map<string, Obj>)
    ensures Show(DictObj(birth, kids)) == Dict(ShowKids(kids))
  {
    assert (map k | k in kids :: Show(kids[k])) == ShowKids(kids);
  }

  function ShowKids(kids: map<string, Obj>): map<string, Json> {
    map k | k in kids :: Show(kids[k])
  }

  function ShowOption(o: Option<Obj>): Option<Json> {
    if o.Some? then Some(Show(o.value)) else None
  }

  /** Scalars are no containers in disguise. */
  predicate Proper(o: Obj) {
    match o
    case Scalar(json) => !json.Dict? && !json.List?
    case ListObj(_, _) => true
    case DictObj(_, kids) => forall k :: k in kids ==> Proper(kids[k])
  }

  lemma {:induction false} LoadShows(json: Json, birth: nat)
    ensures Show(Load(json, birth)) == json && Proper(Load(json, birth))
  {
    if json.Dict? {
      forall k | k in json.entries
        ensures Show(Load(json.entries[k], birth)) == json.entries[k] && Proper(Load(json.entries[k], birth))
      {
        LoadShows(json.entries[k], birth);
      }
    }
  }

  // ---- One operation, in place ----

  function ValueOf(op: Op): Json {
    if op.Set? || op.AppendUnique? then op.value else Null
  }

  function WithValue(op: Op, value: Json): Op {
    match op
    case Set(path, _) => Set(path, value)
    case AppendUnique(path, _, needle) => AppendUnique(path, value, needle)
    case _ => op
  }

  /** What an operation leaves under the last segment: `set` attaches `value` itself, an append grows the array in
      place, a removal puts a new array there. */
  function EditSlot(op: Op, cur: Option<Obj>, value: Obj, born: nat, mentions: Mentions)
    : Result<Option<Obj>, EditError>
  {
    match op
    case Set(_, _) => Ok(if ShowOption(cur).GetOr(Null) == Show(value) then cur else Some(value))
    case Delete(_) => Ok(None)
    case AppendUnique(_, _, needle) =>
      if ShowOption(cur).GetOr(Null) == Null then Ok(Some(ListObj(born, [Show(value)])))
      else if !cur.value.ListObj? then Err(Refused)
      else if AnyMentions(cur.value.items, needle, mentions) then Ok(cur)
      else Ok(Some(ListObj(cur.value.birth, cur.value.items + [Show(value)])))
    case RemoveBySubstring(_, needle, nested, prune) =>
      if ShowOption(cur).GetOr(Null) == Null then Ok(cur)
      else if !cur.value.ListObj? then Err(Refused)
      else
        var kept := Kept(cur.value.items, needle, nested, mentions);
        Ok(if kept == [] && prune then None else if kept == cur.value.items then cur else Some(ListObj(born, kept)))
    case Other(_) => Err(BadSpec)
  }

  /** The walk down `path`: existing objects are edited in place and keep their birth, missing ones are made. */
  function EditObj(kids: map<string, Obj>, path: Path, op: Op, value: Obj, born: nat, mentions: Mentions)
    : Result<(map<string, Obj>, bool), EditError>
    requires path != []
    decreases |path|
  {
    var next := Lookup(kids, path[0]);
    if |path| == 1 then
      var edited :- EditSlot(op, next, value, born, mentions);
      Ok((Put(kids, path[0], edited), edited != next))
    else if ShowOption(next).GetOr(Null) == Null then
      if op.Creates() then
        var inner :- EditObj(map[], path[1..], op, value, born, mentions);
        Ok((kids[path[0] := DictObj(born, inner.0)], inner.1))
      else Ok((kids, false))
    else if !next.value.DictObj? then
      if op.Creates() then Err(Refused) else Ok((kids, false))
    else
      var inner :- EditObj(next.value.kids, path[1..], op, value, born, mentions);
      Ok((kids[path[0] := DictObj(next.value.birth, inner.0)], inner.1))
  }

  /** The other holders of an object see it change: `was` and `now` are the tree around the edit, `held` is an operation
      value met at the same place, and `path` leads from there to the target. */
  function SyncHere(held: Obj, op: Op, path: Path, was: Obj, now: Obj): Obj
    decreases |path|
  {
    if path == [] then
      if op.AppendUnique? && held.ListObj? && was.ListObj? && now.ListObj? && held.birth == was.birth then now else held
    else if !held.DictObj? || !was.DictObj? || !now.DictObj? then held
    else if held.birth == was.birth then now
    else if path[0] in held.kids && path[0] in was.kids && path[0] in now.kids then
      held.(kids :=
        held.kids[path[0] := SyncHere(held.kids[path[0]], op, path[1..], was.kids[path[0]], now.kids[path[0]])])
    else held
  }

  /** The same for a value attached at `at`, a prefix of the target path. */
  function SyncAt(held: Obj, at: Path, op: Op, path: Path, was: map<string, Obj>, now: map<string, Obj>): Obj
    requires at != [] && at <= path
    decreases |at|
  {
    var k := at[0];
    if k !in was || k !in now then held
    else if |at| == 1 then SyncHere(held, op, path[1..], was[k], now[k])
    else if was[k].DictObj? && now[k].DictObj? then SyncAt(held, at[1..], op, path[1..], was[k].kids, now[k].kids)
    else held
  }

  /** Only the values of `set` operations are ever attached below a key. */
  function SyncValue(held: Obj, owner: Op, op: Op, was: map<string, Obj>, now: map<string, Obj>): Obj
    requires !op.Other?
  {
    if owner.Set? && owner.path != [] && owner.path <= op.path then SyncAt(held, owner.path, op, op.path, was, now)
    else held
  }

  function SyncAll(objs: seq<Obj>, ops: seq<Op>, op: Op, was: map<string, Obj>,
                   now: map<string, Obj>): (synced: seq<Obj>)
    requires |objs| == |ops| && !op.Other?
    ensures |synced| == |ops| && forall i :: 0 <= i < |ops| ==> synced[i] == SyncValue(objs[i], ops[i], op, was, now)
  {
    seq(|ops|, i requires 0 <= i < |ops| => SyncValue(objs[i], ops[i], op, was, now))
  }

  // ---- A list of operations ----

  /** The operations' value objects as they are now, and the next unused birth. */
  datatype Values = Values(objs: seq<Obj>, next: nat)

  datatype Progress = Progress(kids: map<string, Obj>, objs: seq<Obj>, changed: bool)

  function Declared(ops: seq<Op>): Values {
    Values(seq(|ops|, i requires 0 <= i < |ops| => Load(ValueOf(ops[i]), i)), |ops|)
  }

  function StepShared(p: Progress, ops: seq<Op>, j: nat, born: nat,
                      mentions: Mentions): (r: Result<Progress, EditError>)
    requires j < |ops| == |p.objs|
    ensures r.Ok? ==> |r.value.objs| == |ops|
  {
    var op := ops[j];
    if op.Other? || (op.RemoveBySubstring? && op.substring == "") then Err(BadSpec)
    else if op.path == [] then Err(Crashed)
    else
      var edited :- EditObj(p.kids, op.path, op, p.objs[j], born, mentions);
      Ok(Progress(edited.0,
                  SyncAll(p.objs, ops, op, p.kids, edited.0),
                  p.changed || edited.1))
  }

  function Start(tree: Json, vs: Values): Progress
    requires tree.Dict?
  {
    Progress(Load(tree, vs.next).kids, vs.objs, false)
  }

  /** The operations from `j` on, in order; `base` is the birth of the copied file. */
  function RunFrom(p: Progress, ops: seq<Op>, j: nat, base: nat, mentions: Mentions): (r: Result<Progress, EditError>)
    requires |p.objs| == |ops| && j <= |ops|
    ensures r.Ok? ==> |r.value.objs| == |ops|
    decreases |ops| - j
  {
    if j == |ops| then Ok(p)
    else
      var step :- StepShared(p, ops, j, base + 1 + j, mentions);
      RunFrom(step, ops, j + 1, base, mentions)
  }

  /** One attempt on `tree` with the values `vs`. */
  function Attempt(tree: Json, ops: seq<Op>, vs: Values, mentions: Mentions): (r: Result<Progress, EditError>)
    requires tree.Dict? && |vs.objs| == |ops|
    ensures r.Ok? ==> |r.value.objs| == |ops|
  {
    RunFrom(Start(tree, vs), ops, 0, vs.next, mentions)
  }

  lemma RunUnfolds(p: Progress, ops: seq<Op>, j: nat, base: nat, mentions: Mentions)
    requires j < |ops| == |p.objs|
    ensures var step := StepShared(p, ops, j, base + 1 + j, mentions);
            RunFrom(p, ops, j, base, mentions)
            == if step.Err? then Err(step.error) else RunFrom(step.value, ops, j + 1, base, mentions)
  {}

  method ApplyOps(tree: Json, ops: seq<Op>, vs: Values, mentions: Mentions) returns (r: Result<Progress, EditError>)
    requires tree.Dict? && |vs.objs| == |ops|
    ensures r == Attempt(tree, ops, vs, mentions)
  {
    var p := Start(tree, vs);
    for j := 0 to |ops|
      invariant |p.objs| == |ops| && RunFrom(p, ops, j, vs.next, mentions) == Attempt(tree, ops, vs, mentions)
    {
      RunUnfolds(p, ops, j, vs.next, mentions);
      var step := StepShared(p, ops, j, vs.next + 1 + j, mentions);
      if step.Err? {
        return Err(step.error);
      }
      p := step.value;
    }
    return Ok(p);
  }

  function After(vs: Values, ops: seq<Op>, objs: seq<Obj>): Values {
    Values(objs, vs.next + |ops| + 1)
  }

  /** The values after attempts on the contents `ts`, one after the other; None when one of them fails. */
  function AfterAttempts(ts: seq<Json>, ops: seq<Op>, mentions: Mentions): (r: Option<Values>)
    ensures r.Some? ==> |r.value.objs| == |ops|
  {
    if ts == [] then Some(Declared(ops))
    else
      var t, before := ts[|ts| - 1], AfterAttempts(ts[..|ts| - 1], ops, mentions);
      if before.None? || !t.Dict? then None
      else
        var run := Attempt(t, ops, before.value, mentions);
        if run.Err? then None else Some(After(before.value, ops, run.value.objs))
  }

  /** The operations with the values they hold now: what the structural diff compares against. */
  function Current(ops: seq<Op>, objs: seq<Obj>): seq<Op>
    requires |objs| == |ops|
  {
    seq(|ops|, i requires 0 <= i < |ops| => WithValue(ops[i], Show(objs[i])))
  }

  /** The operations from `j` on, with the value each has when its turn comes. */
  function UsedFrom(p: Progress, ops: seq<Op>, j: nat, base: nat, mentions: Mentions): (used: seq<Op>)
    requires |p.objs| == |ops| && j <= |ops| && RunFrom(p, ops, j, base, mentions).Ok?
    ensures |used| == |ops| - j
    decreases |ops| - j
  {
    if j == |ops| then []
    else
      var step := StepShared(p, ops, j, base + 1 + j, mentions).value;
      [WithValue(ops[j], Show(p.objs[j]))] + UsedFrom(step, ops, j + 1, base, mentions)
  }

  function Used(tree: Json, ops: seq<Op>, vs: Values, mentions: Mentions): (used: seq<Op>)
    requires tree.Dict? && |vs.objs| == |ops| && Attempt(tree, ops, vs, mentions).Ok?
    ensures |used| == |ops|
  {
    UsedFrom(Start(tree, vs), ops, 0, vs.next, mentions)
  }

  /** Same kinds, paths and options; only values may differ. */
  predicate SameShape(a: seq<Op>, b: seq<Op>) {
    |a| == |b| && forall i :: 0 <= i < |a| ==> a[i] == WithValue(b[i], ValueOf(a[i]))
  }

  // ---- In place and on values: one step ----

  lemma {:induction false} ShowSlot(op: Op, cur: Option<Obj>, value: Obj, born: nat, mentions: Mentions)
    requires cur.Some? ==> Proper(cur.value)
    ensures var pure, slot :=
              EditLeaf(WithValue(op, Show(value)), ShowOption(cur), mentions), EditSlot(op, cur, value, born, mentions);
            && (slot.Ok? <==> pure.Ok?) && (slot.Err? ==> slot.error == pure.error)
            && (slot.Ok? ==>
                  ShowOption(slot.value) == pure.value && (slot.value != cur <==> pure.value != ShowOption(cur)))
            && (slot.Ok? && Proper(value) && slot.value.Some? ==> Proper(slot.value.value))
  {
    if cur.Some? {
      var o := cur.value;
      assert Show(o).List? <==> o.ListObj?;
      assert o.ListObj? ==> Show(o) == List(o.items);
    }
    match op
    case Set(_, _) =>
    case Delete(_) =>
    case AppendUnique(_, _, _) => assert [] + [Show(value)] == [Show(value)];
    case RemoveBySubstring(_, _, _, _) =>
    case Other(_) =>
  }

  lemma {:induction false} ShowPut(kids: map<string, Obj>, key: string, slot: Option<Obj>)
    ensures ShowKids(Put(kids, key, slot)) == Put(ShowKids(kids), key, ShowOption(slot))
    ensures ShowOption(Lookup(kids, key)) == Lookup(ShowKids(kids), key)
  {}

  predicate AllProper(kids: map<string, Obj>) {
    forall k :: k in kids ==> Proper(kids[k])
  }

  /** An outcome on objects reads as the outcome on values. */
  predicate Mirrors(obj: Result<(map<string, Obj>, bool), EditError>,
                    pure: Result<(map<string, Json>, bool), EditError>) {
    && (obj.Ok? <==> pure.Ok?) && (obj.Err? ==> obj.error == pure.error)
    && (obj.Ok? ==> ShowKids(obj.value.0) == pure.value.0 && obj.value.1 == pure.value.1 && AllProper(obj.value.0))
  }

  lemma {:induction false} MirrorsAbove(kids: map<string, Obj>, key: string, birth: nat,
                                        inner: (map<string, Obj>, bool), pure: (map<string, Json>, bool))
    requires AllProper(kids) && AllProper(inner.0) && ShowKids(inner.0) == pure.0 && inner.1 == pure.1
    ensures Mirrors(Ok((kids[key := DictObj(birth, inner.0)], inner.1)),
                    Ok((ShowKids(kids)[key := Dict(pure.0)], pure.1)))
  {
    ShowDict(birth, inner.0);
    assert ShowKids(kids[key := DictObj(birth, inner.0)]) == ShowKids(kids)[key := Dict(pure.0)];
  }

  lemma {:induction false} ShowEditLast(kids: map<string, Obj>, path: Path, op: Op, value: Obj, born: nat,
                                        mentions: Mentions)
    requires |path| == 1 && Proper(value) && AllProper(kids)
    ensures Mirrors(EditObj(kids, path, op, value, born, mentions),
                    EditAt(ShowKids(kids), path, WithValue(op, Show(value)), mentions))
  {
    var next := Lookup(kids, path[0]);
    ShowPut(kids, path[0], next);
    ShowSlot(op, next, value, born, mentions);
    var slot := EditSlot(op, next, value, born, mentions);
    if slot.Ok? { ShowPut(kids, path[0], slot.value); }
  }

  lemma {:induction false} ShowEditInside(kids: map<string, Obj>, path: Path, op: Op, value: Obj, born: nat,
                                          mentions: Mentions)
    requires |path| > 1 && AllProper(kids) && path[0] in kids && kids[path[0]].DictObj?
    requires Mirrors(EditObj(kids[path[0]].kids, path[1..], op, value, born, mentions),
                     EditAt(ShowKids(kids[path[0]].kids), path[1..], WithValue(op, Show(value)), mentions))
    ensures Mirrors(EditObj(kids, path, op, value, born, mentions),
                    EditAt(ShowKids(kids), path, WithValue(op, Show(value)), mentions))
  {
    var next, now := kids[path[0]], WithValue(op, Show(value));
    ShowDict(next.birth, next.kids);
    var inner, pure :=
      EditObj(next.kids, path[1..], op, value, born, mentions), EditAt(ShowKids(next.kids), path[1..], now, mentions);
    if inner.Ok? { MirrorsAbove(kids, path[0], next.birth, inner.value, pure.value); }
  }

  lemma {:induction false} ShowEditOutside(kids: map<string, Obj>, path: Path, op: Op, value: Obj, born: nat,
                                           mentions: Mentions)
    requires |path| > 1 && AllProper(kids) && !(path[0] in kids && kids[path[0]].DictObj?)
    requires Mirrors(EditObj(map[], path[1..], op, value, born, mentions),
                     EditAt(map[], path[1..], WithValue(op, Show(value)), mentions))
    ensures Mirrors(EditObj(kids, path, op, value, born, mentions),
                    EditAt(ShowKids(kids), path, WithValue(op, Show(value)), mentions))
  {
    ShowPut(kids, path[0], Lookup(kids, path[0]));
    var now := WithValue(op, Show(value));
    var inner, pure := EditObj(map[], path[1..], op, value, born, mentions), EditAt(map[], path[1..], now, mentions);
    if inner.Ok? { MirrorsAbove(kids, path[0], born, inner.value, pure.value); }
  }

  /** Read as trees, the edit in place is the edit on values with the value the operation holds now. */
  lemma {:induction false} ShowEdit(kids: map<string, Obj>, path: Path, op: Op, value: Obj, born: nat,
                                    mentions: Mentions)
    requires path != [] && Proper(value) && AllProper(kids)
    ensures Mirrors(EditObj(kids, path, op, value, born, mentions),
                    EditAt(ShowKids(kids), path, WithValue(op, Show(value)), mentions))
    decreases |path|
  {
    if |path| == 1 {
      ShowEditLast(kids, path, op, value, born, mentions);
    } else if path[0] in kids && kids[path[0]].DictObj? {
      ShowEdit(kids[path[0]].kids, path[1..], op, value, born, mentions);
      ShowEditInside(kids, path, op, value, born, mentions);
    } else {
      assert ShowKids(map[]) == map[];
      ShowEdit(map[], path[1..], op, value, born, mentions);
      ShowEditOutside(kids, path, op, value, born, mentions);
    }
  }

  // ---- A whole attempt, from any values ----

  predicate ProperObjs(objs: seq<Obj>) {
    forall i :: 0 <= i < |objs| ==> Proper(objs[i])
  }

  lemma {:induction false} SyncHereProper(held: Obj, op: Op, path: Path, was: Obj, now: Obj)
    requires Proper(held) && Proper(now)
    ensures Proper(SyncHere(held, op, path, was, now))
    decreases |path|
  {
    if path != [] && held.DictObj? && was.DictObj? && now.DictObj? && held.birth != was.birth
       && path[0] in held.kids && path[0] in was.kids && path[0] in now.kids {
      SyncHereProper(held.kids[path[0]], op, path[1..], was.kids[path[0]], now.kids[path[0]]);
    }
  }

  lemma {:induction false} SyncAtProper(held: Obj, at: Path, op: Op, path: Path, was: map<string, Obj>,
                                        now: map<string, Obj>)
    requires at != [] && at <= path && Proper(held) && AllProper(now)
    ensures Proper(SyncAt(held, at, op, path, was, now))
    decreases |at|
  {
    var k := at[0];
    if k in was && k in now {
      if |at| == 1 {
        SyncHereProper(held, op, path[1..], was[k], now[k]);
      } else if was[k].DictObj? && now[k].DictObj? {
        SyncAtProper(held, at[1..], op, path[1..], was[k].kids, now[k].kids);
      }
    }
  }

  /** A step reads as one operation on values, carried out with the value that operation holds now. */
  lemma {:induction false} StepMirrors(p: Progress, ops: seq<Op>, j: nat, born: nat, mentions: Mentions)
    requires j < |ops| == |p.objs| && ProperObjs(p.objs) && AllProper(p.kids)
    ensures var step := StepShared(p, ops, j, born, mentions);
            var pure := ApplyOp(Dict(ShowKids(p.kids)), WithValue(ops[j], Show(p.objs[j])), mentions);
            && (step.Ok? <==> pure.Ok?) && (step.Err? ==> step.error == pure.error)
            && (step.Ok? ==>
                  pure.value.0 == Dict(ShowKids(step.value.kids)) && step.value.changed == (p.changed || pure.value.1)
                             && ProperObjs(step.value.objs) && AllProper(step.value.kids))
  {
    var op := ops[j];
    if !op.Other? && op.path != [] {
      ShowEdit(p.kids, op.path, op, p.objs[j], born, mentions);
      var edited := EditObj(p.kids, op.path, op, p.objs[j], born, mentions);
      if edited.Ok? {
        forall i | 0 <= i < |ops| ensures Proper(SyncValue(p.objs[i], ops[i], op, p.kids, edited.value.0)) {
          if ops[i].Set? && ops[i].path != [] && ops[i].path <= op.path {
            SyncAtProper(p.objs[i], ops[i].path, op, op.path, p.kids, edited.value.0);
          }
        }
      }
    }
  }

  lemma {:induction false} UsedShape(p: Progress, ops: seq<Op>, j: nat, base: nat, mentions: Mentions)
    requires |p.objs| == |ops| && j <= |ops| && RunFrom(p, ops, j, base, mentions).Ok?
    ensures SameShape(UsedFrom(p, ops, j, base, mentions), ops[j..])
    decreases |ops| - j
  {
    if j < |ops| {
      var step := StepShared(p, ops, j, base + 1 + j, mentions).value;
      UsedShape(step, ops, j + 1, base, mentions);
      assert ops[j..] == [ops[j]] + ops[j + 1..];
      ShapeCons(ops[j], Show(p.objs[j]), UsedFrom(step, ops, j + 1, base, mentions), ops[j + 1..]);
    }
  }

  lemma {:induction false} ShapeCons(op: Op, value: Json, used: seq<Op>, ops: seq<Op>)
    requires SameShape(used, ops)
    ensures SameShape([WithValue(op, value)] + used, [op] + ops)
  {
    var a, b := [WithValue(op, value)] + used, [op] + ops;
    forall i | 0 <= i < |a| ensures a[i] == WithValue(b[i], ValueOf(a[i])) {
      if i > 0 { assert a[i] == used[i - 1] && b[i] == ops[i - 1]; }
    }
  }

  lemma {:induction false} ApplyAllSnoc(tree: Json, ops: seq<Op>, op: Op, mentions: Mentions)
    requires tree.Dict? && ApplyAll(tree, ops, mentions).Ok?
    ensures ApplyAll(tree, ops + [op], mentions)
         == var before, after :=
              ApplyAll(tree, ops, mentions).value, ApplyOp(ApplyAll(tree, ops, mentions).value.0, op, mentions);
            if after.Err? then Err(after.error) else Ok((after.value.0, before.1 || after.value.1))
  {
    assert (ops + [op])[..|ops|] == ops;
  }

  /** The attempt so far reads as the value-level run of `used`. */
  predicate Reads(p: Progress, tree: Json, used: seq<Op>, mentions: Mentions)
    requires tree.Dict?
  {
    && ApplyAll(tree, used, mentions) == Ok((Dict(ShowKids(p.kids)), p.changed))
    && ProperObjs(p.objs) && AllProper(p.kids)
  }

  lemma {:induction false} LoadedTree(tree: Json, birth: nat)
    requires tree.Dict?
    ensures Dict(ShowKids(Load(tree, birth).kids)) == tree && AllProper(Load(tree, birth).kids)
  {
    LoadShows(tree, birth);
    ShowDict(birth, Load(tree, birth).kids);
  }

  lemma {:induction false} StepReads(p: Progress, ops: seq<Op>, j: nat, born: nat, tree: Json, used: seq<Op>,
                                     mentions: Mentions)
    requires j < |ops| == |p.objs| && tree.Dict? && Reads(p, tree, used, mentions)
    requires StepShared(p, ops, j, born, mentions).Ok?
    ensures Reads(
              StepShared(p, ops, j, born, mentions).value, tree, used + [WithValue(ops[j], Show(p.objs[j]))], mentions)
  {
    StepMirrors(p, ops, j, born, mentions);
    ApplyAllSnoc(tree, used, WithValue(ops[j], Show(p.objs[j])), mentions);
  }

  lemma {:induction false} FirstOfUsed(p: Progress, ops: seq<Op>, j: nat, base: nat, done: seq<Op>, mentions: Mentions)
    requires |p.objs| == |ops| && j < |ops| && RunFrom(p, ops, j, base, mentions).Ok?
    ensures var step := StepShared(p, ops, j, base + 1 + j, mentions);
            && step.Ok? && RunFrom(step.value, ops, j + 1, base, mentions) == RunFrom(p, ops, j, base, mentions)
            && done + UsedFrom(p, ops, j, base, mentions)
               == done + [WithValue(ops[j], Show(p.objs[j]))] + UsedFrom(step.value, ops, j + 1, base, mentions)
  {}

  /** Whatever values an attempt starts from, it applies the used operations to the tree. */
  lemma {:induction false} RunReads(p: Progress, ops: seq<Op>, j: nat, base: nat, tree: Json, done: seq<Op>,
                                    mentions: Mentions)
    requires |p.objs| == |ops| && j <= |ops| && RunFrom(p, ops, j, base, mentions).Ok?
    requires tree.Dict? && Reads(p, tree, done, mentions)
    ensures Reads(RunFrom(p, ops, j, base, mentions).value, tree, done + UsedFrom(p, ops, j, base, mentions), mentions)
    decreases |ops| - j
  {
    if j == |ops| {
      assert done + [] == done;
    } else {
      var step, op := StepShared(p, ops, j, base + 1 + j, mentions).value, WithValue(ops[j], Show(p.objs[j]));
      StepReads(p, ops, j, base + 1 + j, tree, done, mentions);
      FirstOfUsed(p, ops, j, base, done, mentions);
      RunReads(step, ops, j + 1, base, tree, done + [op], mentions);
    }
  }

  lemma {:induction false} AttemptIsUsed(tree: Json, ops: seq<Op>, vs: Values, mentions: Mentions)
    requires tree.Dict? && |vs.objs| == |ops| && ProperObjs(vs.objs) && Attempt(tree, ops, vs, mentions).Ok?
    ensures Reads(Attempt(tree, ops, vs, mentions).value, tree, Used(tree, ops, vs, mentions), mentions)
    ensures SameShape(Used(tree, ops, vs, mentions), ops)
  {
    LoadedTree(tree, vs.next);
    RunReads(Start(tree, vs), ops, 0, vs.next, tree, [], mentions);
    assert [] + Used(tree, ops, vs, mentions) == Used(tree, ops, vs, mentions);
    UsedShape(Start(tree, vs), ops, 0, vs.next, mentions);
    assert ops[0..] == ops;
  }
}
