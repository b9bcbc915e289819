/** What an accepted diff guarantees, and when an applied operation list is accepted. */
module ConfigDiffTheorems {
  import opened Wrappers
  import opened JsonTree
  import opened ConfigEdit

  // ---- Soundness of the diff ----

  /** The three leaf lists of the diff are empty exactly when every uncovered leaf is untouched. */
  lemma {:induction false} DiffComparesLeaves(t: Json, t': Json, ops: seq<Op>)
    ensures OnlyDeclaredChanged(t, t', ops) <==>
            forall p :: !Covered(p, ops) ==> LeafAt(t, p) == LeafAt(t', p)
  {
    var before, after := Flatten(t), Flatten(t');
    TableOfLeaves(t);
    TableOfLeaves(t');
    if forall p :: !Covered(p, ops) ==> LeafAt(t, p) == LeafAt(t', p) {
      forall p | p in before || p in after
        ensures Covered(p, ops) || LeafAt(t, p) == LeafAt(t', p)
      {}
    }
  }

  lemma {:induction false} TableOfLeaves(t: Json)
    ensures forall p :: p in Flatten(t) <==> LeafAt(t, p).Some?
    ensures forall p :: p in Flatten(t) ==> LeafAt(t, p) == Some(Flatten(t)[p])
  {
    forall p
      ensures p in Flatten(t) <==> LeafAt(t, p).Some?
      ensures p in Flatten(t) ==> LeafAt(t, p) == Some(Flatten(t)[p])
    {
      FlattenIsLeafTable(t, p);
    }
  }

  predicate Incomparable(q: Path, path: Path) {
    !(q <= path) && !(path <= q)
  }

  predicate Foreign(q: Path, ops: seq<Op>) {
    forall i :: 0 <= i < |ops| && !ops[i].Other? ==> Incomparable(q, ops[i].path)
  }

  /** A key named like the empty-object marker, sitting beside the way to some operation's target. */
  predicate Shadowed(q: Path, ops: seq<Op>) {
    q != [] && q[|q| - 1] == EMPTY_DICT &&
    exists i :: 0 <= i < |ops| && !ops[i].Other? && q[..|q| - 1] <= ops[i].path
  }

  lemma {:induction false} LeafBelowUncovered(q: Path, s: Path, path: Path)
    requires Incomparable(q, path)
    requires s != [] || q == [] || q[|q| - 1] != EMPTY_DICT || !(q[..|q| - 1] <= path)
    ensures !CoveredBy(q + s, path)
  {
    if s == [] {
      assert q + s == q;
    } else {
      assert (q + s)[..|q + s| - 1][..|q|] == q;
    }
    assert (q + s)[..|q|] == q;
  }

  lemma {:induction false} LeavesBelowUncovered(q: Path, s: Path, ops: seq<Op>)
    requires Foreign(q, ops) && (s != [] || !Shadowed(q, ops))
    ensures !Covered(q + s, ops)
  {
    forall i | 0 <= i < |ops| && !ops[i].Other?
      ensures !CoveredBy(q + s, ops[i].path)
    {
      LeafBelowUncovered(q, s, ops[i].path);
    }
  }

  /** An accepted diff leaves the subtree at every foreign, unshadowed path untouched. */
  lemma {:induction false} AcceptedDiffKeepsForeign(t: Json, t': Json, ops: seq<Op>, q: Path)
    requires OnlyDeclaredChanged(t, t', ops)
    requires Foreign(q, ops) && !Shadowed(q, ops)
    ensures Subtree(t, q) == Subtree(t', q)
  {
    DiffComparesLeaves(t, t', ops);
    forall s ensures LeafAt(t, q + s) == LeafAt(t', q + s) {
      LeavesBelowUncovered(q, s, ops);
    }
    if Subtree(t, q).Some? && Subtree(t', q).Some? {
      forall s ensures LeafAt(Subtree(t, q).value, s) == LeafAt(Subtree(t', q).value, s) {
        LeafBelow(t, q, s);
        LeafBelow(t', q, s);
      }
      LeavesDetermineTree(Subtree(t, q).value, Subtree(t', q).value);
    } else if Subtree(t, q).Some? {
      PresentNotAbsent(t, t', q);
    } else if Subtree(t', q).Some? {
      PresentNotAbsent(t', t, q);
    }
  }

  lemma {:induction false} PresentNotAbsent(t: Json, t': Json, q: Path)
    requires Subtree(t, q).Some? && Subtree(t', q).None?
    ensures exists s :: LeafAt(t, q + s) != LeafAt(t', q + s)
  {
    var s := LeafExists(Subtree(t, q).value);
    LeafBelow(t, q, s);
    if LeafAt(t', q + s).Some? {
      LeafBelowAbsent(t', q, s);
      assert q + s == q;
    }
  }

  /** A tree holding nothing but `v` under `q`. */
  function Nest(q: Path, v: Json): Json {
    if q == [] then v else Dict(map[q[0] := Nest(q[1..], v)])
  }

  lemma {:induction false} NestLeaves(q: Path, v: Json, p: Path)
    requires !v.Dict?
    ensures Subtree(Nest(q, v), q) == Some(v)
    ensures LeafAt(Nest(q, v), p) == if p == q then Some(Value(v)) else None
  {
    if q != [] {
      NestLeaves(q[1..], v, if p == [] then [] else p[1..]);
      if p != [] && p[0] == q[0] {
        assert p == [p[0]] + p[1..] && q == [q[0]] + q[1..];
      }
    }
  }

  /** A foreign path is protected by every accepted diff exactly when it is not shadowed. */
  lemma {:induction false} ForeignPathsProtected(ops: seq<Op>, q: Path)
    requires Foreign(q, ops)
    ensures (forall t, t' :: OnlyDeclaredChanged(t, t', ops) ==> Subtree(t, q) == Subtree(t', q))
            <==> !Shadowed(q, ops)
  {
    if Shadowed(q, ops) {
      var t, t' := Nest(q, Atom("1")), Nest(q, Atom("2"));
      assert Covered(q, ops);
      forall p | !Covered(p, ops) ensures LeafAt(t, p) == LeafAt(t', p) {
        NestLeaves(q, Atom("1"), p);
        NestLeaves(q, Atom("2"), p);
      }
      DiffComparesLeaves(t, t', ops);
      NestLeaves(q, Atom("1"), q);
      NestLeaves(q, Atom("2"), q);
      assert OnlyDeclaredChanged(t, t', ops) && Subtree(t, q) != Subtree(t', q);
    } else {
      forall t, t' | OnlyDeclaredChanged(t, t', ops) ensures Subtree(t, q) == Subtree(t', q) {
        AcceptedDiffKeepsForeign(t, t', ops, q);
      }
    }
  }

  predicate MarkerFree(t: Json) {
    t.Dict? ==> forall k :: k in t.entries ==> k != EMPTY_DICT && MarkerFree(t.entries[k])
  }

  lemma {:induction false} MarkerFreeSubtree(t: Json, q: Path)
    requires MarkerFree(t) && EMPTY_DICT in q
    ensures Subtree(t, q).None?
  {
    if t.Dict? && q[0] in t.entries {
      MarkerFreeSubtree(t.entries[q[0]], q[1..]);
    }
  }

  /** The guarantee as documented: with no key spelled like the marker, nothing outside the
      operation paths differs. */
  lemma {:induction false} AcceptedDiffGuarantee(t: Json, t': Json, ops: seq<Op>, q: Path)
    requires OnlyDeclaredChanged(t, t', ops)
    requires MarkerFree(t) && MarkerFree(t')
    requires Foreign(q, ops)
    ensures Subtree(t, q) == Subtree(t', q)
  {
    if Shadowed(q, ops) {
      assert q[|q| - 1] in q;
      MarkerFreeSubtree(t, q);
      MarkerFreeSubtree(t', q);
    } else {
      AcceptedDiffKeepsForeign(t, t', ops, q);
    }
  }

  // ---- What an accepted removal guarantees ----

  /** `x` is one of the elements a removal answers for. */
  predicate Answerable(node: Option<Json>, nested: Option<string>, x: Json) {
    node.Some? && node.value.List?
    && if nested.GetOr("") == "" then x in node.value.items
       else exists i :: 0 <= i < |node.value.items| && HasNested(node.value.items[i], nested)
                        && x in node.value.items[i].entries[nested.value].items
  }

  /** The operation puts `x` where the removal took from, as its value or inside its value's nested array. */
  predicate PutsBack(op: Op, path: Path, nested: Option<string>, x: Json) {
    && op.Creates() && op.path == path
    && if HasNested(op.value, nested) then x in op.value.entries[nested.value].items else x == op.value
  }

  lemma {:induction false} ReaddedIff(later: seq<Op>, path: Path, nested: Option<string>, x: Json)
    ensures x in Readded(later, path, nested) <==> exists j :: 0 <= j < |later| && PutsBack(later[j], path, nested, x)
  {
    if later != [] {
      var init, op := later[..|later| - 1], later[|later| - 1];
      ReaddedIff(init, path, nested, x);
      if exists j :: 0 <= j < |later| && PutsBack(later[j], path, nested, x) {
        var j :| 0 <= j < |later| && PutsBack(later[j], path, nested, x);
        assert j < |init| ==> init[j] == later[j];
      }
      if x in Readded(init, path, nested) {
        var j :| 0 <= j < |init| && PutsBack(init[j], path, nested, x);
        assert later[j] == init[j];
      }
    }
  }

  lemma {:induction false} SurvivorsIff(items: seq<Json>, nested: Option<string>, x: Json)
    requires nested.GetOr("") != ""
    ensures x in Survivors(items, nested) <==>
              exists i :: 0 <= i < |items| && HasNested(items[i], nested) && x in items[i].entries[nested.value].items
  {
    if items != [] {
      SurvivorsIff(items[1..], nested, x);
      if exists i :: 0 <= i < |items| && HasNested(items[i], nested) && x in items[i].entries[nested.value].items {
        var i :| 0 <= i < |items| && HasNested(items[i], nested) && x in items[i].entries[nested.value].items;
        assert i > 0 ==> items[1..][i - 1] == items[i];
      }
      if x in Survivors(items[1..], nested) {
        var i :| 0 <= i < |items[1..]| && HasNested(items[1..][i], nested)
                 && x in items[1..][i].entries[nested.value].items;
        assert items[i + 1] == items[1..][i];
      }
    }
  }

  /** A removal passes the diff exactly when every element it answers for that still mentions the needle was put back by
      a later operation on the same path. */
  lemma {:induction false} RemovalAcceptedIff(op: Op, later: seq<Op>, node: Option<Json>, mentions: Mentions)
    requires op.RemoveBySubstring?
    ensures OpHeld(op, later, node, mentions) <==>
              forall x :: Answerable(node, op.nestedKey, x) && mentions(op.substring, x) ==>
                exists j :: 0 <= j < |later| && PutsBack(later[j], op.path, op.nestedKey, x)
  {
    if node.Some? && node.value.List? {
      var survivors := Survivors(node.value.items, op.nestedKey);
      forall x
        ensures x in Readded(later, op.path, op.nestedKey)
           <==> exists j :: 0 <= j < |later| && PutsBack(later[j], op.path, op.nestedKey, x)
        ensures x in survivors <==> Answerable(node, op.nestedKey, x)
      {
        ReaddedIff(later, op.path, op.nestedKey, x);
        if op.nestedKey.GetOr("") != "" { SurvivorsIff(node.value.items, op.nestedKey, x); }
      }
      if OpHeld(op, later, node, mentions) {
        forall x | Answerable(node, op.nestedKey, x) && mentions(op.substring, x)
          ensures x in Readded(later, op.path, op.nestedKey)
        {
          assert x in survivors;
          var i :| 0 <= i < |survivors| && survivors[i] == x;
        }
      }
    }
  }
}
