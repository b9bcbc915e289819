/** Applying a declared operation a second time: when it finds nothing left to do. */
module ConfigReapply {
  import opened Wrappers
  import opened JsonTree
  import opened ConfigEdit
  import opened ConfigApplyTheorems

  lemma {:induction false} UnmentionedTwice(items: seq<Json>, needle: string, mentions: Mentions)
    ensures Unmentioned(Unmentioned(items, needle, mentions), needle, mentions) == Unmentioned(items, needle, mentions)
  {
    if items != [] {
      UnmentionedTwice(items[1..], needle, mentions);
      var rest := Unmentioned(items[1..], needle, mentions);
      if mentions(needle, items[0]) {
        assert [] + rest == rest;
      } else {
        assert ([items[0]] + rest)[1..] == rest;
      }
    }
  }

  lemma {:induction false} KeptOfTwice(el: Json, needle: string, nested: Option<string>, mentions: Mentions)
    ensures var kept := KeptOf(el, needle, nested, mentions);
            kept == [] || (|kept| == 1 && KeptOf(kept[0], needle, nested, mentions) == kept)
  {
    if HasNested(el, nested) {
      UnmentionedTwice(el.entries[nested.value].items, needle, mentions);
    }
  }

  /** Filtering an array twice is filtering it once, nested arrays and dropped husks included. */
  lemma {:induction false} KeptTwice(items: seq<Json>, needle: string, nested: Option<string>, mentions: Mentions)
    ensures Kept(Kept(items, needle, nested, mentions), needle, nested, mentions)
            == Kept(items, needle, nested, mentions)
  {
    if items != [] {
      KeptTwice(items[1..], needle, nested, mentions);
      KeptOfTwice(items[0], needle, nested, mentions);
      var first, rest := KeptOf(items[0], needle, nested, mentions), Kept(items[1..], needle, nested, mentions);
      if first == [] {
        assert first + rest == rest;
      } else {
        assert (first + rest)[0] == first[0] && (first + rest)[1..] == rest && [first[0]] == first;
      }
    }
  }

  /** An append can recognise its own work: its value, or an entry already there, mentions its needle. */
  predicate Recognisable(op: Op, cur: Option<Json>, mentions: Mentions) {
    op.AppendUnique? ==>
      mentions(op.uniqueBySubstring, op.value)
      || (cur.Some? && cur.value.List? && AnyMentions(cur.value.items, op.uniqueBySubstring, mentions))
  }

  lemma {:induction false} AnyMentionsSnoc(items: seq<Json>, x: Json, needle: string, mentions: Mentions)
    ensures AnyMentions(items + [x], needle, mentions) <==> AnyMentions(items, needle, mentions) || mentions(needle, x)
  {
    var longer := items + [x];
    assert longer[|items|] == x && forall i :: 0 <= i < |items| ==> longer[i] == items[i];
  }

  lemma {:induction false} AppendTwice(op: Op, cur: Option<Json>, mentions: Mentions)
    requires op.AppendUnique? && EditLeaf(op, cur, mentions).Ok?
    ensures var after := EditLeaf(op, cur, mentions).value;
            && EditLeaf(op, after, mentions).Ok?
            && (EditLeaf(op, after, mentions).value == after <==> Recognisable(op, cur, mentions))
  {
    var before := if cur.GetOr(Null) == Null then [] else cur.value.items;
    AnyMentionsSnoc(before, op.value, op.uniqueBySubstring, mentions);
    assert |before + [op.value] + [op.value]| != |before + [op.value]|;
  }

  lemma {:induction false} LeafTwice(op: Op, cur: Option<Json>, mentions: Mentions)
    requires !op.Other? && EditLeaf(op, cur, mentions).Ok?
    ensures var after := EditLeaf(op, cur, mentions).value;
            && EditLeaf(op, after, mentions).Ok?
            && (EditLeaf(op, after, mentions).value == after <==> Recognisable(op, cur, mentions))
  {
    if op.AppendUnique? {
      AppendTwice(op, cur, mentions);
    } else if op.RemoveBySubstring? && cur.Some? && cur.value.List? {
      KeptTwice(cur.value.items, op.substring, op.nestedKey, mentions);
    }
  }

  lemma {:induction false} EditTwice(entries: map<string, Json>, path: Path, op: Op, mentions: Mentions)
    requires path != [] && !op.Other? && EditAt(entries, path, op, mentions).Ok?
    ensures var after := EditAt(entries, path, op, mentions).value.0;
            && EditAt(after, path, op, mentions).Ok?
            && (!EditAt(after, path, op, mentions).value.1
               <==> Recognisable(op, Subtree(Dict(entries), path), mentions))
            && (!EditAt(after, path, op, mentions).value.1 ==> EditAt(after, path, op, mentions).value.0 == after)
    decreases |path|
  {
    SubtreeStep(entries, path);
    var next := Lookup(entries, path[0]);
    if |path| == 1 {
      LeafTwice(op, next, mentions);
      var edited := EditLeaf(op, next, mentions).value;
      assert Lookup(Put(entries, path[0], edited), path[0]) == edited;
      assert Put(Put(entries, path[0], edited), path[0], edited) == Put(entries, path[0], edited);
    } else if next.GetOr(Null) == Null {
      if op.Creates() {
        SubtreeStep(map[], path[1..]);
        EditTwice(map[], path[1..], op, mentions);
        Absent(next, path[1..]);
      }
    } else if next.value.Dict? {
      EditTwice(next.value.entries, path[1..], op, mentions);
    }
  }

  lemma Absent(next: Option<Json>, rest: Path)
    requires next.GetOr(Null) == Null && rest != []
    ensures Subtree(Dict(map[]), rest) == None && (next.Some? ==> Subtree(next.value, rest) == None)
  {}

  /**
   * An operation that was applied applies again, and finds nothing to do, if and only if it is not an
   * append whose needle occurs neither in its own value nor in the array it found.
   */
  lemma {:induction false} ReapplyIsNoOpIff(t: Json, op: Op, mentions: Mentions)
    requires t.Dict? && ApplyOp(t, op, mentions).Ok?
    ensures var t' := ApplyOp(t, op, mentions).value.0;
            && ApplyOp(t', op, mentions).Ok?
            && (ApplyOp(t', op, mentions) == Ok((t', false)) <==> Recognisable(op, Subtree(t, op.path), mentions))
  {
    EditTwice(t.entries, op.path, op, mentions);
  }
}
