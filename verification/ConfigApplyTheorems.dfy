/** When the diff accepts what the operations produced: exactly for one operation, and for lists of
    operations that do not get in each other's way. */
module ConfigApplyTheorems {
  import opened Wrappers
  import opened JsonTree
  import opened ConfigEdit
  import opened ConfigDiffTheorems

  // ---- One edit: what it changes and what it leaves alone ----

  /** A null on the way to `path`, except under the marker key, whose loss the diff does not notice. */
  predicate NullOnTheWay(t: Json, path: Path) {
    exists n :: 0 < n < |path| && Subtree(t, path[..n]) == Some(Null) && path[n - 1] != EMPTY_DICT
  }

  lemma SubtreeStep(entries: map<string, Json>, q: Path)
    requires q != []
    ensures q[0] in entries ==> Subtree(Dict(entries), q) == Subtree(entries[q[0]], q[1..])
    ensures q[0] !in entries ==> Subtree(Dict(entries), q) == None
  {}

  /** The target ends up holding what the operation makes of its old value. */
  lemma {:induction false} EditTarget(entries: map<string, Json>, path: Path, op: Op, mentions: Mentions)
    requires path != [] && !op.Other? && EditAt(entries, path, op, mentions).Ok?
    ensures EditLeaf(op, Subtree(Dict(entries), path), mentions)
            == Ok(Subtree(Dict(EditAt(entries, path, op, mentions).value.0), path))
    decreases |path|
  {
    SubtreeStep(entries, path);
    SubtreeStep(EditAt(entries, path, op, mentions).value.0, path);
    var next := Lookup(entries, path[0]);
    if |path| > 1 {
      if next.GetOr(Null) == Null {
        if op.Creates() {
          SubtreeStep(map[], path[1..]);
          EditTarget(map[], path[1..], op, mentions);
        }
      } else if next.value.Dict? {
        EditTarget(next.value.entries, path[1..], op, mentions);
      }
    }
  }

  /** Paths incomparable with the target keep their subtree, or stay absent. */
  lemma {:induction false} EditFrame(entries: map<string, Json>, path: Path, op: Op, mentions: Mentions, q: Path)
    requires path != [] && EditAt(entries, path, op, mentions).Ok?
    requires Incomparable(q, path)
    ensures Subtree(Dict(EditAt(entries, path, op, mentions).value.0), q) == Subtree(Dict(entries), q)
    decreases |path|
  {
    SubtreeStep(entries, q);
    SubtreeStep(EditAt(entries, path, op, mentions).value.0, q);
    if q[0] == path[0] {
      assert path == [path[0]] + path[1..] && q == [q[0]] + q[1..];
      var next := Lookup(entries, path[0]);
      if next.GetOr(Null) == Null {
        if op.Creates() { EditFrame(map[], path[1..], op, mentions, q[1..]); }
      } else if next.value.Dict? {
        EditFrame(next.value.entries, path[1..], op, mentions, q[1..]);
      }
    }
  }

  /** No edit puts a null on the way to its own target, and a creating edit removes any. */
  lemma {:induction false} EditSpine(entries: map<string, Json>, path: Path, op: Op, mentions: Mentions, n: nat)
    requires path != [] && EditAt(entries, path, op, mentions).Ok? && n < |path|
    ensures var after := Subtree(Dict(EditAt(entries, path, op, mentions).value.0), path[..n]);
            (op.Creates() ==> after.Some? && after.value.Dict?) &&
            (after == Some(Null) ==> Subtree(Dict(entries), path[..n]) == Some(Null))
    decreases |path|
  {
    if n > 0 {
      SubtreeStep(entries, path[..n]);
      SubtreeStep(EditAt(entries, path, op, mentions).value.0, path[..n]);
      assert path[..n][1..] == path[1..][..n - 1];
      var next := Lookup(entries, path[0]);
      if next.GetOr(Null) == Null {
        if op.Creates() { EditSpine(map[], path[1..], op, mentions, n - 1); }
      } else if next.value.Dict? {
        EditSpine(next.value.entries, path[1..], op, mentions, n - 1);
      }
    }
  }

  lemma {:induction false} LeafElsewhere(entries: map<string, Json>, entries': map<string, Json>, key: string, p: Path)
    requires entries - {key} == entries' - {key}
    requires p != [EMPTY_DICT] && (p == [] || p[0] != key)
    ensures LeafAt(Dict(entries), p) == LeafAt(Dict(entries'), p)
  {
    if p != [] {
      assert p[0] in entries <==> p[0] in entries - {key};
      assert p[0] in entries' <==> p[0] in entries' - {key};
      if p[0] in entries {
        assert entries[p[0]] == (entries - {key})[p[0]] == (entries' - {key})[p[0]];
      }
    }
  }

  /** Every leaf the operation path does not cover keeps its value. */
  lemma {:induction false} EditLeaves(entries: map<string, Json>, path: Path, op: Op, mentions: Mentions, p: Path)
    requires path != [] && EditAt(entries, path, op, mentions).Ok?
    requires !CoveredBy(p, path)
    requires op.Creates() ==> !NullOnTheWay(Dict(entries), path)
    ensures LeafAt(Dict(EditAt(entries, path, op, mentions).value.0), p) == LeafAt(Dict(entries), p)
    decreases |path|
  {
    assert CoveredBy([EMPTY_DICT], path) by { assert [EMPTY_DICT][..0] <= path; }
    if p != [] && p[0] == path[0] {
      assert path == [path[0]] + path[1..] && p == [p[0]] + p[1..];
      var next := Lookup(entries, path[0]);
      assert !CoveredBy(p[1..], path[1..]) by {
        if p[1..] != [] { assert p[..|p| - 1] == [p[0]] + p[1..][..|p[1..]| - 1]; }
      }
      if next.GetOr(Null) == Null {
        if op.Creates() {
          assert next == Some(Null) ==> Subtree(Dict(entries), path[..1]) == Some(Null);
          NothingOnTheWay(path[1..]);
          EditLeaves(map[], path[1..], op, mentions, p[1..]);
          assert p[1..] != [EMPTY_DICT];
        }
      } else if next.value.Dict? {
        if op.Creates() { NullBelow(entries, path); }
        EditLeaves(next.value.entries, path[1..], op, mentions, p[1..]);
      }
    } else {
      LeafElsewhere(entries, EditAt(entries, path, op, mentions).value.0, path[0], p);
    }
  }

  lemma NothingOnTheWay(path: Path)
    ensures !NullOnTheWay(Dict(map[]), path)
  {}

  lemma {:induction false} NullBelow(entries: map<string, Json>, path: Path)
    requires |path| > 1 && path[0] in entries
    requires !NullOnTheWay(Dict(entries), path)
    ensures !NullOnTheWay(entries[path[0]], path[1..])
  {
    forall n | 0 < n < |path[1..]| && path[1..][n - 1] != EMPTY_DICT
      ensures Subtree(entries[path[0]], path[1..][..n]) != Some(Null)
    {
      assert path[..n + 1][1..] == path[1..][..n];
      assert path[n + 1 - 1] == path[1..][n - 1];
    }
  }

  // ---- Removal really removes ----

  lemma {:induction false} SurvivorsAppend(a: seq<Json>, b: seq<Json>, nested: Option<string>)
    ensures Survivors(a + b, nested) == Survivors(a, nested) + Survivors(b, nested)
  {
    if a == [] {
      assert a + b == b;
    } else {
      assert (a + b)[1..] == a[1..] + b;
      SurvivorsAppend(a[1..], b, nested);
    }
  }

  lemma {:induction false} KeptOfMentionsNothing(el: Json, needle: string, nested: Option<string>, mentions: Mentions)
    ensures forall x :: x in Survivors(KeptOf(el, needle, nested, mentions), nested) ==> !mentions(needle, x)
  {
    var kept := KeptOf(el, needle, nested, mentions);
    if kept != [] {
      assert kept == [kept[0]];
      assert Survivors(kept[1..], nested) == [];
    }
  }

  lemma {:induction false} KeptMentionsNothing(items: seq<Json>, needle: string, nested: Option<string>,
                                               mentions: Mentions)
    ensures forall x :: x in Survivors(Kept(items, needle, nested, mentions), nested) ==> !mentions(needle, x)
  {
    if items != [] {
      KeptOfMentionsNothing(items[0], needle, nested, mentions);
      KeptMentionsNothing(items[1..], needle, nested, mentions);
      SurvivorsAppend(KeptOf(items[0], needle, nested, mentions), Kept(items[1..], needle, nested, mentions), nested);
    }
  }

  // ---- One operation: the exact condition ----

  /** What a caller can check on the original tree before asking for `op`. */
  predicate OpClean(t: Json, op: Op) {
    && (op.Creates() ==> !NullOnTheWay(t, op.path))
    && (op.Set? && op.value == Null ==> Subtree(t, op.path).Some?)
  }

  /** Right after it ran, an operation's own postcondition fails only for a null set on an absent key. */
  lemma {:induction false} AppliedOpHolds(t: Json, op: Op, later: seq<Op>, mentions: Mentions)
    requires t.Dict? && ApplyOp(t, op, mentions).Ok?
    ensures OpHeld(op, later, Subtree(ApplyOp(t, op, mentions).value.0, op.path), mentions)
            <==> (op.Set? && op.value == Null ==> Subtree(t, op.path).Some?)
  {
    EditTarget(t.entries, op.path, op, mentions);
    if op.RemoveBySubstring? {
      var cur := Subtree(t, op.path);
      if cur.Some? && cur.value.List? {
        KeptMentionsNothing(cur.value.items, op.substring, op.nestedKey, mentions);
      }
    }
  }

  lemma {:induction false} NullLossRejected(t: Json, op: Op, mentions: Mentions)
    requires t.Dict? && ApplyOp(t, op, mentions).Ok?
    requires op.Creates() && NullOnTheWay(t, op.path)
    ensures !OnlyDeclaredChanged(t, ApplyOp(t, op, mentions).value.0, [op])
  {
    var t' := ApplyOp(t, op, mentions).value.0;
    var n :| 0 < n < |op.path| && Subtree(t, op.path[..n]) == Some(Null) && op.path[n - 1] != EMPTY_DICT;
    var p := op.path[..n];
    EditSpine(t.entries, op.path, op, mentions, n);
    LeafBelow(t, p, []);
    LeafBelow(t', p, []);
    assert p + [] == p;
    assert LeafAt(t, p) != LeafAt(t', p);
    assert !Covered(p, [op]);
    DiffComparesLeaves(t, t', [op]);
  }

  /** A single successfully applied operation is accepted by the diff exactly when it is clean. */
  lemma {:induction false} SingleOpAcceptedIffClean(t: Json, op: Op, mentions: Mentions)
    requires t.Dict? && ApplyOp(t, op, mentions).Ok?
    ensures Verified(t, ApplyOp(t, op, mentions).value.0, [op], mentions) <==> OpClean(t, op)
  {
    var t' := ApplyOp(t, op, mentions).value.0;
    AppliedOpHolds(t, op, [], mentions);
    assert [op][0] == op && [op][0 + 1..] == [];
    if op.Creates() && NullOnTheWay(t, op.path) {
      NullLossRejected(t, op, mentions);
    } else {
      forall p | !Covered(p, [op]) ensures LeafAt(t, p) == LeafAt(t', p) {
        assert !CoveredBy(p, [op][0].path);
        EditLeaves(t.entries, op.path, op, mentions, p);
      }
      DiffComparesLeaves(t, t', [op]);
    }
  }

  // ---- Lists of operations ----

  /** `a` runs before `b`: their targets are apart, or they are the re-registration of an array entry. */
  predicate Compatible(a: Op, b: Op) {
    || a.Other? || b.Other?
    || Incomparable(a.path, b.path)
    || (a.path == b.path && ((a.RemoveBySubstring? && b.AppendUnique?) ||
                             (a.AppendUnique? && (b.AppendUnique? || b.RemoveBySubstring?))))
  }

  predicate Admissible(t: Json, ops: seq<Op>) {
    && (forall i :: 0 <= i < |ops| && !ops[i].Other? ==> OpClean(t, ops[i]))
    && (forall i, j :: 0 <= i < j < |ops| ==> Compatible(ops[i], ops[j]))
  }

  /** Running a compatible operation does not spoil a later one. */
  lemma {:induction false} CleanStaysClean(t: Json, op: Op, next: Op, mentions: Mentions)
    requires t.Dict? && ApplyOp(t, op, mentions).Ok?
    requires !next.Other? && OpClean(t, next) && Compatible(op, next)
    ensures OpClean(ApplyOp(t, op, mentions).value.0, next)
  {
    var t' := ApplyOp(t, op, mentions).value.0;
    forall n | next.Creates() && 0 < n < |next.path| && next.path[n - 1] != EMPTY_DICT
      ensures Subtree(t', next.path[..n]) != Some(Null)
    {
      assert Subtree(t, next.path[..n]) != Some(Null);
      if n < |op.path| && next.path[..n] == op.path[..n] {
        EditSpine(t.entries, op.path, op, mentions, n);
      } else {
        PrefixIncomparable(op.path, next.path, n);
        EditFrame(t.entries, op.path, op, mentions, next.path[..n]);
      }
    }
    if next.Set? {
      EditFrame(t.entries, op.path, op, mentions, next.path);
    }
  }

  lemma {:induction false} PrefixIncomparable(path: Path, next: Path, n: nat)
    requires n < |next| && (path == next || Incomparable(path, next))
    requires !(n < |path| && next[..n] == path[..n])
    ensures Incomparable(next[..n], path)
  {
    assert next[..n] <= next;
  }

  lemma {:induction false} ReaddedGrows(later: seq<Op>, next: Op, path: Path, nested: Option<string>)
    ensures forall x :: x in Readded(later, path, nested) ==> x in Readded(later + [next], path, nested)
    ensures next.Creates() && next.path == path ==>
              forall x :: x in Survivors([next.value], nested) ==> x in Readded(later + [next], path, nested)
  {
    assert (later + [next])[..|later + [next]| - 1] == later;
    if next.Creates() {
      assert Survivors([next.value][1..], nested) == [];
    }
  }

  /** A later operation only adds to what may be put back. */
  lemma {:induction false} HeldOnSameNode(op: Op, later: seq<Op>, next: Op, node: Option<Json>, mentions: Mentions)
    requires OpHeld(op, later, node, mentions)
    ensures OpHeld(op, later + [next], node, mentions)
  {
    if op.RemoveBySubstring? { ReaddedGrows(later, next, op.path, op.nestedKey); }
  }

  lemma {:induction false} AppendedSurvivors(op: Op, later: seq<Op>, next: Op, items: seq<Json>, mentions: Mentions)
    requires op.RemoveBySubstring? && next.AppendUnique? && op.path == next.path
    requires OpHeld(op, later, Some(List(items)), mentions)
    ensures OpHeld(op, later + [next], Some(List(items + [next.value])), mentions)
  {
    ReaddedGrows(later, next, op.path, op.nestedKey);
    SurvivorsAppend(items, [next.value], op.nestedKey);
  }

  /** The re-registration case: an array entry removed, then appended anew. */
  lemma {:induction false} RemovalHeldAfterAppend(op: Op, later: seq<Op>, next: Op, cur: Option<Json>,
                                                  mentions: Mentions)
    requires op.RemoveBySubstring? && next.AppendUnique? && op.path == next.path
    requires OpHeld(op, later, cur, mentions) && EditLeaf(next, cur, mentions).Ok?
    ensures OpHeld(op, later + [next], EditLeaf(next, cur, mentions).value, mentions)
  {
    HeldOnSameNode(op, later, next, cur, mentions);
    var items := if cur.GetOr(Null) == Null then [] else cur.value.items;
    if items == [] {
      assert OpHeld(op, later, Some(List([])), mentions) by {
        assert Survivors([], op.nestedKey) == [];
      }
    }
    HeldOnSameNode(op, later, next, Some(List(items)), mentions);
    AppendedSurvivors(op, later, next, items, mentions);
  }

  /** A postcondition that holds survives every compatible operation that runs after it. */
  lemma {:induction false} HeldStaysHeld(t: Json, op: Op, later: seq<Op>, next: Op, mentions: Mentions)
    requires t.Dict? && ApplyOp(t, next, mentions).Ok?
    requires !op.Other? && Compatible(op, next)
    requires OpHeld(op, later, Subtree(t, op.path), mentions)
    ensures OpHeld(op, later + [next], Subtree(ApplyOp(t, next, mentions).value.0, op.path), mentions)
  {
    if Incomparable(op.path, next.path) {
      EditFrame(t.entries, next.path, next, mentions, op.path);
      HeldOnSameNode(op, later, next, Subtree(t, op.path), mentions);
    } else if op.RemoveBySubstring? {
      EditTarget(t.entries, next.path, next, mentions);
      RemovalHeldAfterAppend(op, later, next, Subtree(t, op.path), mentions);
    }
  }

  lemma {:induction false} AdmissibleRun(t: Json, ops: seq<Op>, mentions: Mentions)
    requires t.Dict? && ApplyAll(t, ops, mentions).Ok?
    requires Admissible(t, ops)
    ensures Verified(t, ApplyAll(t, ops, mentions).value.0, ops, mentions)
    ensures forall next: Op :: !next.Other? && OpClean(t, next)
                           && (forall i :: 0 <= i < |ops| ==> Compatible(ops[i], next))
                           ==> OpClean(ApplyAll(t, ops, mentions).value.0, next)
  {
    if ops == [] {
      DiffComparesLeaves(t, t, ops);
    } else {
      var init, op := ops[..|ops| - 1], ops[|ops| - 1];
      AdmissibleRun(t, init, mentions);
      var t1 := ApplyAll(t, init, mentions).value.0;
      var t2 := ApplyOp(t1, op, mentions).value.0;
      forall i | 0 <= i < |init| ensures Compatible(init[i], op) {
        assert init[i] == ops[i];
      }
      assert OpClean(t1, op);
      RunLeaves(t, t1, t2, init, op, mentions);
      assert init + [op] == ops;
      forall i | 0 <= i < |ops| && !ops[i].Other?
        ensures OpHeld(ops[i], ops[i + 1..], Subtree(t2, ops[i].path), mentions)
      {
        if i < |init| {
          assert ops[i + 1..] == init[i + 1..] + [op];
          HeldStaysHeld(t1, init[i], init[i + 1..], op, mentions);
        } else {
          AppliedOpHolds(t1, op, ops[i + 1..], mentions);
        }
      }
      forall next: Op | !next.Other? && OpClean(t, next) && (forall i :: 0 <= i < |ops| ==> Compatible(ops[i], next))
        ensures OpClean(t2, next)
      {
        assert forall i :: 0 <= i < |init| ==> init[i] == ops[i];
        CleanStaysClean(t1, op, next, mentions);
      }
    }
  }

  lemma {:induction false} RunLeaves(t: Json, t1: Json, t2: Json, init: seq<Op>, op: Op, mentions: Mentions)
    requires t1.Dict? && ApplyOp(t1, op, mentions).Ok? && t2 == ApplyOp(t1, op, mentions).value.0
    requires OnlyDeclaredChanged(t, t1, init) && OpClean(t1, op)
    ensures OnlyDeclaredChanged(t, t2, init + [op])
  {
    var ops := init + [op];
    DiffComparesLeaves(t, t1, init);
    forall p | !Covered(p, ops) ensures LeafAt(t, p) == LeafAt(t2, p) {
      assert forall i :: 0 <= i < |init| ==> ops[i] == init[i];
      assert ops[|init|] == op;
      EditLeaves(t1.entries, op.path, op, mentions, p);
    }
    DiffComparesLeaves(t, t2, ops);
  }

  /** Whatever an admissible operation list produces, the structural diff accepts. */
  lemma {:induction false} AppliedOpsAccepted(t: Json, ops: seq<Op>, mentions: Mentions)
    requires t.Dict? && ApplyAll(t, ops, mentions).Ok?
    requires Admissible(t, ops)
    ensures Verified(t, ApplyAll(t, ops, mentions).value.0, ops, mentions)
  {
    AdmissibleRun(t, ops, mentions);
  }
}
