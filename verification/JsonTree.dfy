/** JSON trees as the config editor sees them: subtrees, leaves and the flattened leaf table. */
module JsonTree {
  import opened Wrappers

  type Path = seq<string>

  /** `Atom` carries the canonical text of a scalar other than null, so structural equality is
      equality of the sorted-key dumps the editor compares. */
  datatype Json =
    | Null
    | Atom(text: string)
    | List(items: seq<Json>)
    | Dict(entries: map<string, Json>)

  /** What `flatten` stores for one leaf: the marker of an empty object, or the dump of a non-object. */
  datatype Leaf = EmptyMark | Value(json: Json)

  const EMPTY_DICT := "<empty-dict>"

  /** The node reached by following `p` from `t` through objects. */
  function Subtree(t: Json, p: Path): Option<Json> {
    if p == [] then Some(t)
    else if t.Dict? && p[0] in t.entries then Subtree(t.entries[p[0]], p[1..])
    else None
  }

  method Walk(tree: Json, path: Path) returns (node: Option<Json>)
    ensures node == Subtree(tree, path)
  {
    var here := tree;
    for i := 0 to |path|
      invariant Subtree(tree, path) == Subtree(here, path[i..])
    {
      var seg := path[i];
      if !here.Dict? || seg !in here.entries {
        return None;
      }
      assert path[i..][1..] == path[i + 1..];
      here := here.entries[seg];
    }
    return Some(here);
  }

  /** Reference definition of a leaf table: the leaf of `t` stored under `p`, if any. */
  function LeafAt(t: Json, p: Path): Option<Leaf> {
    if !t.Dict? then
      if p == [] then Some(Value(t)) else None
    else if t.entries == map[] then
      if p == [EMPTY_DICT] then Some(EmptyMark) else None
    else if p != [] && p[0] in t.entries then LeafAt(t.entries[p[0]], p[1..])
    else None
  }

  /** The leaf table itself; each key is prepended to the paths of the tables below it. */
  function Flatten(t: Json): map<Path, Leaf> {
    if !t.Dict? then map[[] := Value(t)]
    else if t.entries == map[] then map[[EMPTY_DICT] := EmptyMark]
    else
      map p | p in (set k, q | k in t.entries && q in Flatten(t.entries[k]) :: [k] + q)
        :: Flatten(t.entries[p[0]])[p[1..]]
  }

  lemma {:induction false} FlattenIsLeafTable(t: Json, p: Path)
    ensures p in Flatten(t) <==> LeafAt(t, p).Some?
    ensures p in Flatten(t) ==> LeafAt(t, p) == Some(Flatten(t)[p])
  {
    if t.Dict? && t.entries != map[] && p != [] {
      assert p == [p[0]] + p[1..];
      if p[0] in t.entries {
        FlattenIsLeafTable(t.entries[p[0]], p[1..]);
      }
    }
  }

  // ---- Subtrees and leaves determine each other ----

  lemma {:induction false} LeafBelow(t: Json, q: Path, s: Path)
    requires Subtree(t, q).Some?
    ensures LeafAt(t, q + s) == LeafAt(Subtree(t, q).value, s)
  {
    if q == [] {
      assert q + s == s;
    } else {
      assert (q + s)[1..] == q[1..] + s;
      LeafBelow(t.entries[q[0]], q[1..], s);
    }
  }

  /** Under a path that is absent, the only leaf there can be is the marker of an empty parent. */
  lemma {:induction false} LeafBelowAbsent(t: Json, q: Path, s: Path)
    requires Subtree(t, q).None? && LeafAt(t, q + s).Some?
    ensures s == [] && q[|q| - 1] == EMPTY_DICT && LeafAt(t, q) == Some(EmptyMark)
  {
    if t.Dict? && t.entries != map[] {
      assert (q + s)[1..] == q[1..] + s;
      LeafBelowAbsent(t.entries[q[0]], q[1..], s);
    } else {
      assert q + s == q;
    }
  }

  lemma {:induction false} LeafExists(t: Json) returns (s: Path)
    ensures LeafAt(t, s).Some?
    ensures s == [] ==> LeafAt(t, s).value.Value?
  {
    if !t.Dict? {
      s := [];
    } else if t.entries == map[] {
      s := [EMPTY_DICT];
    } else {
      var k :| k in t.entries;
      var rest := LeafExists(t.entries[k]);
      s := [k] + rest;
    }
  }

  lemma {:induction false} KeysDetermined(a: Json, b: Json, k: string)
    requires a.Dict? && b.Dict? && k in a.entries
    requires forall s :: LeafAt(a, s) == LeafAt(b, s)
    ensures k in b.entries
  {
    var rest := LeafExists(a.entries[k]);
    var s := [k] + rest;
    assert LeafAt(a, s) == LeafAt(a.entries[k], rest);
    assert LeafAt(b, s).Some?;
  }

  /** A tree is determined by its leaf table. */
  lemma {:induction false} LeavesDetermineTree(a: Json, b: Json)
    requires forall s :: LeafAt(a, s) == LeafAt(b, s)
    ensures a == b
  {
    assert LeafAt(a, []) == LeafAt(b, []);
    if a.Dict? {
      forall k | k in a.entries || k in b.entries
        ensures k in a.entries && k in b.entries && a.entries[k] == b.entries[k]
      {
        if k in a.entries { KeysDetermined(a, b, k); } else { KeysDetermined(b, a, k); }
        forall s ensures LeafAt(a.entries[k], s) == LeafAt(b.entries[k], s) {
          assert LeafAt(a, [k] + s) == LeafAt(b, [k] + s);
        }
        LeavesDetermineTree(a.entries[k], b.entries[k]);
      }
      assert a.entries == b.entries;
    }
  }

  lemma {:induction false} FlattenDeterminesTree(a: Json, b: Json)
    ensures Flatten(a) == Flatten(b) ==> a == b
  {
    if Flatten(a) == Flatten(b) {
      forall s ensures LeafAt(a, s) == LeafAt(b, s) {
        FlattenIsLeafTable(a, s);
        FlattenIsLeafTable(b, s);
      }
      LeavesDetermineTree(a, b);
    }
  }
}
