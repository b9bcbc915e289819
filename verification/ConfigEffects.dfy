/** What one operation leaves at its target, and when it is refused: stated about the trees before and after. */
module ConfigEffects {
  import opened Wrappers
  import opened JsonTree
  import opened ConfigEdit
  import opened ConfigDiffTheorems
  import opened ConfigApplyTheorems
  import opened ConfigSharing

  // ---- Removal: which elements survive ----

  /** Whether a removal leaves anything of the element: of its nested array, or else of itself. */
  predicate Survives(el: Json, needle: string, nested: Option<string>, mentions: Mentions) {
    if HasNested(el, nested) then
      exists i :: 0 <= i < |NestedItems(el, nested)| && !mentions(needle, NestedItems(el, nested)[i])
    else !mentions(needle, el)
  }

  function NestedItems(el: Json, nested: Option<string>): seq<Json>
    requires HasNested(el, nested)
  {
    el.entries[nested.value].items
  }

  predicate Ascending(at: seq<nat>) {
    forall j, k :: 0 <= j < k < |at| ==> at[j] < at[k]
  }

  /** `left` are the items at the positions `at`, in order, and those are the positions not mentioned. */
  ghost predicate PicksUnmentioned(items: seq<Json>, left: seq<Json>, at: seq<nat>, needle: string,
                                   mentions: Mentions) {
    && |at| == |left| && Ascending(at)
    && (forall j: nat :: j in at <==> j < |items| && !mentions(needle, items[j]))
    && forall k :: 0 <= k < |at| ==> at[k] < |items| && left[k] == items[at[k]]
  }

  /** What is left of a surviving element: itself, or all its other keys and the unmentioned part of its nested array.
      */
  ghost predicate LeftOf(el: Json, left: Json, needle: string, nested: Option<string>, mentions: Mentions) {
    if HasNested(el, nested) then
      && HasNested(left, nested) && left.entries - {nested.value} == el.entries - {nested.value}
      && exists at :: PicksUnmentioned(NestedItems(el, nested), NestedItems(left, nested), at, needle, mentions)
    else left == el
  }

  /** `left` are what remains of the items at the positions `at`, in order, and those are the positions that survive. */
  ghost predicate PicksSurvivors(items: seq<Json>, left: seq<Json>, at: seq<nat>, needle: string,
                                 nested: Option<string>,
                                 mentions: Mentions)
  {
    && |at| == |left| && Ascending(at)
    && (forall j: nat :: j in at <==> j < |items| && Survives(items[j], needle, nested, mentions))
    && forall k :: 0 <= k < |at| ==> at[k] < |items| && LeftOf(items[at[k]], left[k], needle, nested, mentions)
  }

  /** The positions one further on. */
  function Further(at: seq<nat>): (further: seq<nat>)
    ensures |further| == |at| && forall k :: 0 <= k < |at| ==> further[k] == at[k] + 1
  {
    seq(|at|, k requires 0 <= k < |at| => at[k] + 1)
  }

  lemma {:induction false} FurtherHas(at: seq<nat>, j: nat)
    ensures j in Further(at) <==> j > 0 && j - 1 in at
  {
    if j > 0 && j - 1 in at {
      var k :| 0 <= k < |at| && at[k] == j - 1;
      assert Further(at)[k] == j;
    }
  }

  /** The same behind a new first position, if there is one. */
  function Shifted(first: bool, at: seq<nat>): seq<nat> {
    if first then [0] + Further(at) else Further(at)
  }

  lemma {:induction false} ShiftedHas(first: bool, at: seq<nat>, j: nat)
    ensures j in Shifted(first, at) <==> (j == 0 && first) || (j > 0 && j - 1 in at)
  {
    FurtherHas(at, j);
  }

  lemma {:induction false} ShiftedAscends(first: bool, at: seq<nat>)
    requires Ascending(at)
    ensures Ascending(Shifted(first, at))
  {}

  /** Where the shifted positions lead, in an array with one more element in front. */
  lemma {:induction false} PlaceShifted(el: Json, others: seq<Json>, first: bool, at: seq<nat>, k: nat)
    requires k < |Shifted(first, at)| && forall i :: 0 <= i < |at| ==> at[i] < |others|
    ensures var place, n := Shifted(first, at)[k], if first then 1 else 0;
            && place < |[el] + others|
            && if k < n then place == 0 else place == at[k - n] + 1 && ([el] + others)[place] == others[at[k - n]]
  {}

  lemma {:induction false} UnmentionedPicks(items: seq<Json>, needle: string, mentions: Mentions) returns (at: seq<nat>)
    ensures PicksUnmentioned(items, Unmentioned(items, needle, mentions), at, needle, mentions)
  {
    if items == [] {
      at := [];
    } else {
      var el, others := items[0], items[1..];
      assert items == [el] + others;
      var rest := UnmentionedPicks(others, needle, mentions);
      at := Shifted(!mentions(needle, el), rest);
      OneMorePicked(el, others, Unmentioned(others, needle, mentions), rest, needle, mentions);
    }
  }

  lemma {:induction false} OneMorePicked(el: Json, others: seq<Json>, left: seq<Json>, rest: seq<nat>, needle: string,
                                         mentions: Mentions)
    requires PicksUnmentioned(others, left, rest, needle, mentions)
    ensures PicksUnmentioned([el] + others, (if mentions(needle, el) then [] else [el]) + left,
                             Shifted(!mentions(needle, el), rest), needle, mentions)
  {
    var first, items := !mentions(needle, el), [el] + others;
    var at := Shifted(first, rest);
    ShiftedAscends(first, rest);
    forall j: nat ensures j in at <==> j < |items| && !mentions(needle, items[j]) {
      ShiftedHas(first, rest, j);
    }
    forall k | 0 <= k < |at| ensures at[k] < |items| && ((if first then [el] else []) + left)[k] == items[at[k]] {
      PlaceShifted(el, others, first, rest, k);
    }
  }

  lemma {:induction false} ElementLeft(el: Json, needle: string, nested: Option<string>, mentions: Mentions)
    ensures var left := KeptOf(el, needle, nested, mentions);
            if Survives(el, needle, nested, mentions) then |left| == 1 && LeftOf(el, left[0], needle, nested, mentions)
            else left == []
  {
    if HasNested(el, nested) {
      var items := NestedItems(el, nested);
      var inner := Unmentioned(items, needle, mentions);
      var at := UnmentionedPicks(items, needle, mentions);
      if inner != [] {
        assert at[0] in at && !mentions(needle, items[at[0]]);
        var left := KeptOf(el, needle, nested, mentions)[0];
        assert left.entries - {nested.value} == el.entries - {nested.value};
        assert PicksUnmentioned(items, NestedItems(left, nested), at, needle, mentions);
      } else {
        forall i | 0 <= i < |items| ensures mentions(needle, items[i]) { assert i !in at; }
      }
    }
  }

  /** Of an array, the removal leaves what survives of its elements, in order. */
  lemma {:induction false} ArrayLeft(items: seq<Json>, needle: string, nested: Option<string>, mentions: Mentions)
    returns (at: seq<nat>)
    ensures PicksSurvivors(items, Kept(items, needle, nested, mentions), at, needle, nested, mentions)
  {
    if items == [] {
      at := [];
    } else {
      var el, others := items[0], items[1..];
      assert items == [el] + others;
      var rest := ArrayLeft(others, needle, nested, mentions);
      ElementLeft(el, needle, nested, mentions);
      at := Shifted(Survives(el, needle, nested, mentions), rest);
      OneMoreLeft(el, others, KeptOf(el, needle, nested, mentions), Kept(others, needle, nested, mentions), rest,
                  needle, nested, mentions);
    }
  }

  lemma {:induction false} OneMoreLeft(el: Json, others: seq<Json>, head: seq<Json>, left: seq<Json>, rest: seq<nat>,
                                       needle: string, nested: Option<string>, mentions: Mentions)
    requires PicksSurvivors(others, left, rest, needle, nested, mentions)
    requires if Survives(el, needle, nested, mentions)
             then |head| == 1 && LeftOf(el, head[0], needle, nested, mentions) else head == []
    ensures PicksSurvivors([el] + others, head + left, Shifted(Survives(el, needle, nested, mentions), rest),
                           needle, nested, mentions)
  {
    var first, items := Survives(el, needle, nested, mentions), [el] + others;
    var at := Shifted(first, rest);
    ShiftedAscends(first, rest);
    forall j: nat ensures j in at <==> j < |items| && Survives(items[j], needle, nested, mentions) {
      ShiftedHas(first, rest, j);
    }
    forall k | 0 <= k < |at|
      ensures at[k] < |items| && LeftOf(items[at[k]], (head + left)[k], needle, nested, mentions)
    {
      PlaceShifted(el, others, first, rest, k);
    }
  }

  /** The items of an array, and none where there is no array. */
  function ItemsAt(node: Option<Json>): seq<Json> {
    if node.Some? && node.value.List? then node.value.items else []
  }

  /**
   * After a removal the target holds what survives of the array it held, element by element and in order, and nothing
   * else; only an emptied array that was to be pruned is gone.
   */
  lemma {:induction false} RemovalKeepsTheRest(t: Json, op: Op, mentions: Mentions) returns (at: seq<nat>)
    requires t.Dict? && op.RemoveBySubstring? && ApplyOp(t, op, mentions).Ok?
    requires Subtree(t, op.path).Some? && Subtree(t, op.path).value.List?
    ensures var after := Subtree(ApplyOp(t, op, mentions).value.0, op.path);
            && PicksSurvivors(ItemsAt(Subtree(t, op.path)), ItemsAt(after), at, op.substring, op.nestedKey, mentions)
            && (after.None? <==> op.pruneEmpty && at == []) && (after.Some? ==> after.value.List?)
  {
    EditTarget(t.entries, op.path, op, mentions);
    at := ArrayLeft(ItemsAt(Subtree(t, op.path)), op.substring, op.nestedKey, mentions);
  }

  lemma {:induction false} CountsOfUnmentioned(items: seq<Json>, needle: string, mentions: Mentions, x: Json)
    ensures multiset(Kept(items, needle, None, mentions))[x] == if mentions(needle, x) then 0 else multiset(items)[x]
  {
    if items != [] {
      CountsOfUnmentioned(items[1..], needle, mentions, x);
      assert items == [items[0]] + items[1..];
    }
  }

  lemma {:induction false} PlainKept(items: seq<Json>, needle: string, mentions: Mentions)
    ensures Kept(items, needle, Some(""), mentions) == Kept(items, needle, None, mentions)
  {
    if items != [] { PlainKept(items[1..], needle, mentions); }
  }

  lemma {:induction false} RemovalLeavesKept(t: Json, op: Op, mentions: Mentions)
    requires t.Dict? && op.RemoveBySubstring? && ApplyOp(t, op, mentions).Ok?
    ensures ItemsAt(Subtree(ApplyOp(t, op, mentions).value.0, op.path))
         == Kept(ItemsAt(Subtree(t, op.path)), op.substring, op.nestedKey, mentions)
  {
    EditTarget(t.entries, op.path, op, mentions);
  }

  lemma {:induction false} PlainCounts(items: seq<Json>, needle: string, nested: Option<string>, mentions: Mentions,
                                       x: Json)
    requires nested.GetOr("") == ""
    ensures multiset(Kept(items, needle, nested, mentions))[x] == if mentions(needle, x) then 0 else multiset(items)[x]
  {
    CountsOfUnmentioned(items, needle, mentions, x);
    PlainKept(items, needle, mentions);
    assert nested == None || nested == Some("");
  }

  /** Without a nested key, a value occurs as often as before, or not at all if it mentions the needle. */
  lemma {:induction false} RemovalCounts(t: Json, op: Op, mentions: Mentions, x: Json)
    requires t.Dict? && op.RemoveBySubstring? && op.nestedKey.GetOr("") == "" && ApplyOp(t, op, mentions).Ok?
    ensures var before, after :=
              ItemsAt(Subtree(t, op.path)), ItemsAt(Subtree(ApplyOp(t, op, mentions).value.0, op.path));
            multiset(after)[x] == if mentions(op.substring, x) then 0 else multiset(before)[x]
  {
    var before := ItemsAt(Subtree(t, op.path));
    RemovalLeavesKept(t, op, mentions);
    PlainCounts(before, op.substring, op.nestedKey, mentions, x);
  }

  // ---- What a removal must not take ----

  /** The element is of the removal's own making: it, or something in its nested array, mentions the needle. */
  predicate Ours(el: Json, needle: string, nested: Option<string>, mentions: Mentions) {
    if HasNested(el, nested) then AnyMentions(NestedItems(el, nested), needle, mentions) else mentions(needle, el)
  }

  predicate EmptyNested(el: Json, nested: Option<string>) {
    HasNested(el, nested) && NestedItems(el, nested) == []
  }

  lemma {:induction false} AtLeast(at: seq<nat>, k: nat)
    requires Ascending(at) && k < |at|
    ensures at[k] >= k
  {
    if k > 0 { AtLeast(at, k - 1); }
  }

  /** An ascending list of everything below `n` has each number at its own place. */
  lemma {:induction false} AtItsPlace(at: seq<nat>, n: nat, k: nat)
    requires Ascending(at) && (forall j: nat :: j in at <==> j < n) && k < |at|
    ensures at[k] == k
  {
    AtLeast(at, k);
    assert at[k] in at;
    assert k in at;
    var m :| 0 <= m < |at| && at[m] == k;
    AtLeast(at, m);
    if m < k { AtItsPlace(at, n, m); }
  }

  lemma {:induction false} AllPicked(items: seq<Json>, left: seq<Json>, at: seq<nat>, needle: string,
                                     mentions: Mentions)
    requires PicksUnmentioned(items, left, at, needle, mentions) && !AnyMentions(items, needle, mentions)
    ensures left == items
  {
    forall k | 0 <= k < |at| ensures at[k] == k { AtItsPlace(at, |items|, k); }
    assert |at| < |items| ==> |at| in at;
    if at != [] {
      AtLeast(at, |at| - 1);
      assert at[|at| - 1] in at;
    }
  }

  /** An element that is not the removal's own stays, exactly when its nested array is not empty to begin with. */
  lemma {:induction false} OthersStayIff(el: Json, needle: string, nested: Option<string>, mentions: Mentions)
    requires !Ours(el, needle, nested, mentions)
    ensures Survives(el, needle, nested, mentions) <==> !EmptyNested(el, nested)
  {
    if HasNested(el, nested) && NestedItems(el, nested) != [] {
      assert !mentions(needle, NestedItems(el, nested)[0]);
    }
  }

  /** And then it stays as it was. */
  lemma {:induction false} OthersStayAsTheyWere(el: Json, left: Json, needle: string, nested: Option<string>,
                                                mentions: Mentions)
    requires !Ours(el, needle, nested, mentions) && LeftOf(el, left, needle, nested, mentions)
    ensures left == el
  {
    if HasNested(el, nested) {
      var items, rest := NestedItems(el, nested), NestedItems(left, nested);
      var at :| PicksUnmentioned(items, rest, at, needle, mentions);
      AllPicked(items, rest, at, needle, mentions);
      assert left.entries == (left.entries - {nested.value})[nested.value := List(rest)];
      assert el.entries == (el.entries - {nested.value})[nested.value := List(items)];
    }
  }

  /** "Only what mentions the needle is taken" holds of an array exactly when no element has an empty nested array. */
  lemma {:induction false} OnlyOursTakenIff(items: seq<Json>, nested: Option<string>)
    ensures (forall needle: string, mentions: Mentions, j ::
               0 <= j < |items| && !Ours(items[j], needle, nested, mentions) ==>
               Survives(items[j], needle, nested, mentions))
       <==> forall j :: 0 <= j < |items| ==> !EmptyNested(items[j], nested)
  {
    forall needle: string, mentions: Mentions, j | 0 <= j < |items| && !Ours(items[j], needle, nested, mentions)
      ensures Survives(items[j], needle, nested, mentions) <==> !EmptyNested(items[j], nested)
    {
      OthersStayIff(items[j], needle, nested, mentions);
    }
    forall j | 0 <= j < |items| && EmptyNested(items[j], nested)
      ensures !Ours(items[j], "x", nested, (needle: string, el: Json) => false)
    {}
  }

  /** A hook group with no hooks of its own is dropped by the removal of anybody's hook. */
  lemma EmptyGroupTaken(mentions: Mentions)
    ensures var group := Dict(map["matcher" := Atom("a"), "hooks" := List([])]);
            var t, op := Dict(map["k" := List([group])]), RemoveBySubstring(["k"], "x", Some("hooks"), false);
            && !Ours(group, "x", Some("hooks"), mentions)
            && ApplyOp(t, op, mentions) == Ok((Dict(map["k" := List([])]), true))
  {
    var group := Dict(map["matcher" := Atom("a"), "hooks" := List([])]);
    var t, op := Dict(map["k" := List([group])]), RemoveBySubstring(["k"], "x", Some("hooks"), false);
    assert Kept([group], "x", Some("hooks"), mentions) == [] + Kept([group][1..], "x", Some("hooks"), mentions) == [];
    assert t.entries["k" := List([])] == map["k" := List([])];
  }

  // ---- The other operations ----

  /** After a `set` the target holds the value, and after a `delete` nothing; only a null set where nothing was sets
      nothing. */
  lemma {:induction false} SetAndDeleteHold(t: Json, op: Op, mentions: Mentions)
    requires t.Dict? && ApplyOp(t, op, mentions).Ok?
    ensures var after := Subtree(ApplyOp(t, op, mentions).value.0, op.path);
            && (op.Delete? ==> after == None)
            && (op.Set? ==> after == Some(op.value) || (after == None == Subtree(t, op.path) && op.value == Null))
  {
    EditTarget(t.entries, op.path, op, mentions);
  }

  /** An append keeps every entry in its place and puts its value behind them, unless one of them mentions its needle.
      */
  lemma {:induction false} AppendAddsLast(t: Json, op: Op, mentions: Mentions)
    requires t.Dict? && op.AppendUnique? && ApplyOp(t, op, mentions).Ok?
    ensures var before, after := ItemsAt(Subtree(t, op.path)), Subtree(ApplyOp(t, op, mentions).value.0, op.path);
            && after.Some? && after.value.List? && before <= after.value.items
            && |after.value.items| == |before| + (if AnyMentions(before, op.uniqueBySubstring, mentions) then 0 else 1)
            && (|after.value.items| > |before| ==> after.value.items[|before|] == op.value)
  {
    EditTarget(t.entries, op.path, op, mentions);
  }

  // ---- When an operation is refused ----

  /** Something other than an object, and not null, where an object would have to be. */
  predicate Blocked(node: Option<Json>) {
    node.Some? && node.value != Null && !node.value.Dict?
  }

  predicate BlockedOnTheWay(t: Json, path: Path) {
    exists n :: 0 < n < |path| && Blocked(Subtree(t, path[..n]))
  }

  predicate NotAnArray(node: Option<Json>) {
    node.Some? && node.value != Null && !node.value.List?
  }

  lemma {:induction false} BlockedStep(entries: map<string, Json>, path: Path)
    requires |path| > 1
    ensures BlockedOnTheWay(Dict(entries), path)
       <==> path[0] in entries && (Blocked(Some(entries[path[0]])) || BlockedOnTheWay(entries[path[0]], path[1..]))
  {
    forall n | 0 < n < |path|
      ensures Subtree(Dict(entries), path[..n])
           == if path[0] in entries then Subtree(entries[path[0]], path[1..][..n - 1]) else None
    {
      SubtreeStep(entries, path[..n]);
      assert path[..n][1..] == path[1..][..n - 1];
    }
    if path[0] in entries {
      assert path[..1][1..] == [];
      if BlockedOnTheWay(entries[path[0]], path[1..]) {
        var n :| 0 < n < |path[1..]| && Blocked(Subtree(entries[path[0]], path[1..][..n]));
        assert Blocked(Subtree(Dict(entries), path[..n + 1]));
      }
      if Blocked(Some(entries[path[0]])) { assert Blocked(Subtree(Dict(entries), path[..1])); }
    }
  }

  lemma {:induction false} EditRefusedIff(entries: map<string, Json>, path: Path, op: Op, mentions: Mentions)
    requires path != [] && !op.Other?
    ensures EditAt(entries, path, op, mentions).Err? <==>
            || (op.Creates() && BlockedOnTheWay(Dict(entries), path))
            || ((op.AppendUnique? || op.RemoveBySubstring?) && NotAnArray(Subtree(Dict(entries), path)))
    ensures EditAt(entries, path, op, mentions).Err? ==> EditAt(entries, path, op, mentions).error == Refused
    decreases |path|
  {
    SubtreeStep(entries, path);
    if |path| > 1 {
      BlockedStep(entries, path);
      var next := Lookup(entries, path[0]);
      if next.GetOr(Null) == Null {
        EditRefusedIff(map[], path[1..], op, mentions);
        NothingBlocks(path[1..]);
        NothingBelowNull(path[1..]);
      } else if next.value.Dict? {
        EditRefusedIff(next.value.entries, path[1..], op, mentions);
      }
    }
  }

  lemma {:induction false} NothingBlocks(path: Path)
    requires path != []
    ensures !BlockedOnTheWay(Dict(map[]), path) && Subtree(Dict(map[]), path) == None
  {
    SubtreeStep(map[], path);
    forall n | 0 < n < |path| ensures !Blocked(Subtree(Dict(map[]), path[..n])) { SubtreeStep(map[], path[..n]); }
  }

  lemma {:induction false} NothingBelowNull(path: Path)
    requires path != []
    ensures !BlockedOnTheWay(Null, path) && Subtree(Null, path) == None
  {}

  /** An operation fails exactly when its kind or needle is bad, its path is empty, something that is no object stands
      in the way of what it would build, or its target is no array although it has to be. */
  lemma {:induction false} FailsIff(t: Json, op: Op, mentions: Mentions)
    requires t.Dict?
    ensures var r, bad := ApplyOp(t, op, mentions), op.Other? || (op.RemoveBySubstring? && op.substring == "");
            && (r == Err(BadSpec) <==> bad)
            && (r == Err(Crashed) <==> !bad && op.path == [])
            && (r == Err(Refused) <==>
                 && !bad && op.path != []
                 && (|| (op.Creates() && BlockedOnTheWay(t, op.path))
                     || ((op.AppendUnique? || op.RemoveBySubstring?) && NotAnArray(Subtree(t, op.path)))))
  {
    if !op.Other? && op.path != [] { EditRefusedIff(t.entries, op.path, op, mentions); }
  }

  // ---- When a change is reported ----

  predicate MissingOnTheWay(t: Json, path: Path) {
    exists n :: 0 < n < |path| && Subtree(t, path[..n]).GetOr(Null) == Null
  }

  lemma {:induction false} MissingStep(entries: map<string, Json>, path: Path)
    requires |path| > 1
    ensures MissingOnTheWay(Dict(entries), path)
       <==> Lookup(entries, path[0]).GetOr(Null) == Null || MissingOnTheWay(entries[path[0]], path[1..])
  {
    forall n | 0 < n < |path|
      ensures Subtree(Dict(entries), path[..n])
           == if path[0] in entries then Subtree(entries[path[0]], path[1..][..n - 1]) else None
    {
      SubtreeStep(entries, path[..n]);
      assert path[..n][1..] == path[1..][..n - 1];
    }
    assert path[1..][..0] == [];
    assert Subtree(Dict(entries), path[..1]) == Lookup(entries, path[0]);
    if path[0] in entries && MissingOnTheWay(entries[path[0]], path[1..]) {
      var n :| 0 < n < |path[1..]| && Subtree(entries[path[0]], path[1..][..n]).GetOr(Null) == Null;
      assert Subtree(Dict(entries), path[..n + 1]).GetOr(Null) == Null;
    }
  }

  lemma {:induction false} BuiltFromNothing(path: Path, op: Op, mentions: Mentions)
    requires path != [] && op.Creates() && EditAt(map[], path, op, mentions).Ok?
    ensures EditAt(map[], path, op, mentions).value.1 <==> !(op.Set? && op.value == Null)
    decreases |path|
  {
    if |path| > 1 { BuiltFromNothing(path[1..], op, mentions); }
  }

  lemma {:induction false} EditChangesIff(entries: map<string, Json>, path: Path, op: Op, mentions: Mentions)
    requires path != [] && !op.Other? && EditAt(entries, path, op, mentions).Ok?
    ensures var after, changed :=
              EditAt(entries, path, op, mentions).value.0, EditAt(entries, path, op, mentions).value.1;
            && (changed ==> after != entries)
            && (!changed && after != entries <==>
                 op.Set? && op.value == Null && !BlockedOnTheWay(Dict(entries), path)
                 && MissingOnTheWay(Dict(entries), path))
    decreases |path|
  {
    var next := Lookup(entries, path[0]);
    var after, changed := EditAt(entries, path, op, mentions).value.0, EditAt(entries, path, op, mentions).value.1;
    EditRefusedIff(entries, path, op, mentions);
    if |path| == 1 {
      assert Lookup(after, path[0]) == EditLeaf(op, next, mentions).value;
      assert !changed ==> after == entries;
    } else {
      MissingStep(entries, path);
      if next.GetOr(Null) == Null {
        if op.Creates() {
          BuiltFromNothing(path[1..], op, mentions);
          assert Lookup(after, path[0]) != next;
        }
      } else if next.value.Dict? {
        BlockedStep(entries, path);
        EditChangesIff(next.value.entries, path[1..], op, mentions);
        assert after[path[0]] == Dict(EditAt(next.value.entries, path[1..], op, mentions).value.0);
        assert entries[path[0] := next.value] == entries;
      }
    }
  }

  /** A reported change is one. One that is not reported is none either, except that setting a null builds the missing
      objects on its way in silence. */
  lemma {:induction false} ChangeReportedIff(t: Json, op: Op, mentions: Mentions)
    requires t.Dict? && ApplyOp(t, op, mentions).Ok?
    ensures var after, changed := ApplyOp(t, op, mentions).value.0, ApplyOp(t, op, mentions).value.1;
            && (changed ==> after != t)
            && (!changed && after != t <==> op.Set? && op.value == Null && MissingOnTheWay(t, op.path))
  {
    EditChangesIff(t.entries, op.path, op, mentions);
    EditRefusedIff(t.entries, op.path, op, mentions);
  }

  lemma SilentNullSet(mentions: Mentions)
    ensures ApplyOp(Dict(map[]), Set(["a", "b"], Null), mentions) == Ok((Dict(map["a" := Dict(map[])]), false))
  {
    assert ["a", "b"][1..] == ["b"];
    assert EditAt(map[], ["b"], Set(["a", "b"], Null), mentions) == Ok((map[], false));
  }

  // ---- One operation of a list ----

  /** The other operations of the list work elsewhere. */
  predicate WorksAlone(ops: seq<Op>, i: nat)
    requires i < |ops|
  {
    !ops[i].Other? && forall j :: 0 <= j < |ops| && j != i && !ops[j].Other? ==> Incomparable(ops[i].path, ops[j].path)
  }

  lemma {:induction false} ListFrame(t: Json, ops: seq<Op>, q: Path, mentions: Mentions)
    requires t.Dict? && ApplyAll(t, ops, mentions).Ok? && Foreign(q, ops)
    ensures Subtree(ApplyAll(t, ops, mentions).value.0, q) == Subtree(t, q)
  {
    if ops != [] {
      var init, op := ops[..|ops| - 1], ops[|ops| - 1];
      ListFrame(t, init, q, mentions);
      EditFrame(ApplyAll(t, init, mentions).value.0.entries, op.path, op, mentions, q);
    }
  }

  /** Wherever it stands in the list, an operation that works alone makes of its target what it makes of the original.
      */
  lemma {:induction false} EffectInList(t: Json, ops: seq<Op>, i: nat, mentions: Mentions)
    requires t.Dict? && i < |ops| && WorksAlone(ops, i) && ApplyAll(t, ops, mentions).Ok?
    ensures EditLeaf(ops[i], Subtree(t, ops[i].path), mentions)
         == Ok(Subtree(ApplyAll(t, ops, mentions).value.0, ops[i].path))
  {
    var init, op := ops[..|ops| - 1], ops[|ops| - 1];
    var t1 := ApplyAll(t, init, mentions).value.0;
    if i == |ops| - 1 {
      ListFrame(t, init, op.path, mentions);
      EditTarget(t1.entries, op.path, op, mentions);
    } else {
      EffectInList(t, init, i, mentions);
      EditFrame(t1.entries, op.path, op, mentions, ops[i].path);
    }
  }

  /** A removal in a list leaves exactly what survives of the array the original holds there. */
  lemma {:induction false} RemovalInList(t: Json, ops: seq<Op>, i: nat, mentions: Mentions) returns (at: seq<nat>)
    requires t.Dict? && i < |ops| && WorksAlone(ops, i) && ApplyAll(t, ops, mentions).Ok?
    requires ops[i].RemoveBySubstring? && Subtree(t, ops[i].path).Some? && Subtree(t, ops[i].path).value.List?
    ensures var op, after := ops[i], Subtree(ApplyAll(t, ops, mentions).value.0, ops[i].path);
            && PicksSurvivors(ItemsAt(Subtree(t, op.path)), ItemsAt(after), at, op.substring, op.nestedKey, mentions)
            && (after.None? <==> op.pruneEmpty && at == []) && (after.Some? ==> after.value.List?)
  {
    EffectInList(t, ops, i, mentions);
    at := ArrayLeft(ItemsAt(Subtree(t, ops[i].path)), ops[i].substring, ops[i].nestedKey, mentions);
  }

  /** The same in place, whatever values the attempt starts from. */
  lemma {:induction false} RemovalInAttempt(tree: Json, ops: seq<Op>, vs: Values, i: nat, mentions: Mentions)
    returns (at: seq<nat>)
    requires tree.Dict? && |vs.objs| == |ops| && ProperObjs(vs.objs) && Attempt(tree, ops, vs, mentions).Ok?
    requires i < |ops| && WorksAlone(ops, i) && ops[i].RemoveBySubstring?
    requires Subtree(tree, ops[i].path).Some? && Subtree(tree, ops[i].path).value.List?
    ensures var op, after := ops[i], Subtree(Dict(ShowKids(Attempt(tree, ops, vs, mentions).value.kids)), ops[i].path);
            && PicksSurvivors(ItemsAt(Subtree(tree, op.path)), ItemsAt(after), at, op.substring, op.nestedKey, mentions)
            && (after.None? <==> op.pruneEmpty && at == []) && (after.Some? ==> after.value.List?)
  {
    AttemptIsUsed(tree, ops, vs, mentions);
    var used := Used(tree, ops, vs, mentions);
    ShapeWorksAlone(used, ops, i);
    at := RemovalInList(tree, used, i, mentions);
  }

  lemma {:induction false} ShapeWorksAlone(used: seq<Op>, ops: seq<Op>, i: nat)
    requires SameShape(used, ops) && i < |ops| && WorksAlone(ops, i)
    ensures WorksAlone(used, i) && (ops[i].RemoveBySubstring? ==> used[i] == ops[i])
  {
    forall j | 0 <= j < |used| ensures used[j] == WithValue(ops[j], ValueOf(used[j])) {}
  }
}
