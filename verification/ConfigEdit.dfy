/** The declared operations of the config editor, and the structural diff that judges their result. */
module ConfigEdit {
  import opened Wrappers
  import opened JsonTree

  /** "needle occurs in the dump of this element", left abstract. */
  type Mentions = (string, Json) -> bool

  datatype Op =
    | Set(path: Path, value: Json)
    | Delete(path: Path)
    | AppendUnique(path: Path, value: Json, uniqueBySubstring: string)
    | RemoveBySubstring(path: Path, substring: string, nestedKey: Option<string>, pruneEmpty: bool)
    | Other(kind: string)
  {
    /** set and append_unique build the missing objects on their way; the other two do not. */
    predicate Creates() {
      Set? || AppendUnique?
    }
  }

  /** `Crashed` is the uncaught IndexError raised by an empty path. */
  datatype EditError = Refused | BadSpec | Crashed

  // ---- Applying operations ----

  predicate HasNested(el: Json, nested: Option<string>) {
    nested.Some? && nested.value != "" && el.Dict? && nested.value in el.entries && el.entries[nested.value].List?
  }

  function Unmentioned(items: seq<Json>, needle: string, mentions: Mentions): (kept: seq<Json>)
    ensures forall x :: x in kept <==> x in items && !mentions(needle, x)
    ensures |kept| == |items| ==> kept == items
    ensures |kept| <= |items|
  {
    if items == [] then []
    else (if mentions(needle, items[0]) then [] else [items[0]]) + Unmentioned(items[1..], needle, mentions)
  }

  /** What remains of one array element: a nested array is filtered and an emptied husk dropped, any
      other element goes when it mentions the needle. */
  function KeptOf(el: Json, needle: string, nested: Option<string>, mentions: Mentions): seq<Json> {
    if HasNested(el, nested) then
      var inner := Unmentioned(el.entries[nested.value].items, needle, mentions);
      if inner == [] then []
      else if |inner| != |el.entries[nested.value].items| then [Dict(el.entries[nested.value := List(inner)])]
      else [el]
    else if mentions(needle, el) then [] else [el]
  }

  function Kept(items: seq<Json>, needle: string, nested: Option<string>, mentions: Mentions): seq<Json> {
    if items == [] then []
    else KeptOf(items[0], needle, nested, mentions) + Kept(items[1..], needle, nested, mentions)
  }

  predicate AnyMentions(items: seq<Json>, needle: string, mentions: Mentions) {
    exists i :: 0 <= i < |items| && mentions(needle, items[i])
  }

  /** What an operation does to the value under the last segment of its path. */
  function EditLeaf(op: Op, cur: Option<Json>, mentions: Mentions): Result<Option<Json>, EditError> {
    match op
    case Set(_, v) => Ok(if cur.GetOr(Null) == v then cur else Some(v))
    case Delete(_) => Ok(None)
    case AppendUnique(_, v, needle) =>
      var arr := if cur.GetOr(Null) == Null then List([]) else cur.value;
      if !arr.List? then Err(Refused)
      else if AnyMentions(arr.items, needle, mentions) then Ok(Some(arr))
      else Ok(Some(List(arr.items + [v])))
    case RemoveBySubstring(_, needle, nested, prune) =>
      if cur.GetOr(Null) == Null then Ok(cur)
      else if !cur.value.List? then Err(Refused)
      else
        var kept := Kept(cur.value.items, needle, nested, mentions);
        Ok(if kept == [] && prune then None else Some(List(kept)))
    case Other(_) => Err(BadSpec)
  }

  function Lookup<T>(entries: map<string, T>, key: string): Option<T> {
    if key in entries then Some(entries[key]) else None
  }

  function Put<T>(entries: map<string, T>, key: string, value: Option<T>): map<string, T> {
    match value
    case Some(v) => entries[key := v]
    case None => entries - {key}
  }

  /** Walks down `path`, edits the last segment and reports whether it changed. */
  function EditAt(entries: map<string, Json>, path: Path, op: Op, mentions: Mentions)
    : Result<(map<string, Json>, bool), EditError>
    requires path != []
    decreases |path|
  {
    var next := Lookup(entries, path[0]);
    if |path| == 1 then
      var edited :- EditLeaf(op, next, mentions);
      Ok((Put(entries, path[0], edited), edited != next))
    else if next.GetOr(Null) == Null then
      if op.Creates() then
        var inner :- EditAt(map[], path[1..], op, mentions);
        Ok((entries[path[0] := Dict(inner.0)], inner.1))
      else Ok((entries, false))
    else if !next.value.Dict? then
      if op.Creates() then Err(Refused) else Ok((entries, false))
    else
      var inner :- EditAt(next.value.entries, path[1..], op, mentions);
      Ok((entries[path[0] := Dict(inner.0)], inner.1))
  }

  function ApplyOp(tree: Json, op: Op, mentions: Mentions): (r: Result<(Json, bool), EditError>)
    requires tree.Dict?
    ensures r.Ok? ==> r.value.0.Dict? && !op.Other? && op.path != []
  {
    if op.Other? || (op.RemoveBySubstring? && op.substring == "") then Err(BadSpec)
    else if op.path == [] then Err(Crashed)
    else
      var edited :- EditAt(tree.entries, op.path, op, mentions);
      Ok((Dict(edited.0), edited.1))
  }

  function ApplyAll(tree: Json, ops: seq<Op>, mentions: Mentions): (r: Result<(Json, bool), EditError>)
    requires tree.Dict?
    ensures r.Ok? ==> r.value.0.Dict?
  {
    if ops == [] then Ok((tree, false))
    else
      var before :- ApplyAll(tree, ops[..|ops| - 1], mentions);
      var after :- ApplyOp(before.0, ops[|ops| - 1], mentions);
      Ok((after.0, before.1 || after.1))
  }

  /** The first failing operation decides the outcome of the whole list. */
  lemma {:induction false} ApplyAllFails(tree: Json, ops: seq<Op>, n: nat, mentions: Mentions)
    requires tree.Dict? && n <= |ops|
    requires ApplyAll(tree, ops[..n], mentions).Err?
    ensures ApplyAll(tree, ops, mentions) == ApplyAll(tree, ops[..n], mentions)
    decreases |ops| - n
  {
    if n == |ops| {
      assert ops[..n] == ops;
    } else {
      assert ops[..n + 1][..n] == ops[..n];
      ApplyAllFails(tree, ops, n + 1, mentions);
    }
  }

  // ---- The structural diff ----

  /** One operation path covers a leaf: it is a prefix of it, or the leaf is the marker of an object
      that is empty on the way to the operation's target. */
  predicate CoveredBy(leaf: Path, path: Path) {
    path <= leaf || (leaf != [] && leaf[|leaf| - 1] == EMPTY_DICT && leaf[..|leaf| - 1] <= path)
  }

  predicate Covered(leaf: Path, ops: seq<Op>) {
    exists i :: 0 <= i < |ops| && !ops[i].Other? && CoveredBy(leaf, ops[i].path)
  }

  /** No leaf is lost, changed or invented outside the operation paths. */
  predicate OnlyDeclaredChanged(original: Json, new_: Json, ops: seq<Op>) {
    var before, after := Flatten(original), Flatten(new_);
    && (forall p | p in before && p !in after :: Covered(p, ops))
    && (forall p | p in before && p in after && before[p] != after[p] :: Covered(p, ops))
    && (forall p | p in after && p !in before :: Covered(p, ops))
  }

  /** The elements a remove_by_substring answers for: the nested ones when it names a nested key. */
  function Survivors(items: seq<Json>, nested: Option<string>): seq<Json> {
    if nested.None? || nested.value == "" then items
    else if items == [] then []
    else (if HasNested(items[0], nested) then items[0].entries[nested.value].items else [])
         + Survivors(items[1..], nested)
  }

  function Readded(later: seq<Op>, path: Path, nested: Option<string>): seq<Json> {
    if later == [] then []
    else
      var op := later[|later| - 1];
      Readded(later[..|later| - 1], path, nested) +
      (if !op.Creates() || op.path != path then []
       else if HasNested(op.value, nested) then op.value.entries[nested.value].items
       else [op.value])
  }

  /** Each operation did what it declared, up to what `later` operations put back. */
  predicate OpHeld(op: Op, later: seq<Op>, node: Option<Json>, mentions: Mentions) {
    match op
    case Set(_, v) => node == Some(v)
    case Delete(_) => node.None?
    case RemoveBySubstring(path, needle, nested, _) =>
      node.Some? && node.value.List? ==>
        var survivors := Survivors(node.value.items, nested);
        var readded := Readded(later, path, nested);
        forall i :: 0 <= i < |survivors| && mentions(needle, survivors[i]) ==> survivors[i] in readded
    case _ => true
  }

  predicate Verified(original: Json, new_: Json, ops: seq<Op>, mentions: Mentions) {
    && OnlyDeclaredChanged(original, new_, ops)
    && forall i :: 0 <= i < |ops| && !ops[i].Other? ==>
         OpHeld(ops[i], ops[i + 1..], Subtree(new_, ops[i].path), mentions)
  }

  method VerifyDiff(original: Json, new_: Json, ops: seq<Op>, mentions: Mentions) returns (accepted: bool)
    ensures accepted == Verified(original, new_, ops, mentions)
  {
    if !OnlyDeclaredChanged(original, new_, ops) {
      return false;
    }
    for i := 0 to |ops|
      invariant forall k :: 0 <= k < i && !ops[k].Other? ==>
        OpHeld(ops[k], ops[k + 1..], Subtree(new_, ops[k].path), mentions)
    {
      if !ops[i].Other? {
        var node := Walk(new_, ops[i].path);
        if !OpHeld(ops[i], ops[i + 1..], node, mentions) {
          return false;
        }
      }
    }
    return true;
  }
}
