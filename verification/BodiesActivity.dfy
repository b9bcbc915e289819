/** The incremental watch over the raw bodies directory: polling only unseen names equals a full scan. */
module BodiesActivity {
  import opened Wrappers

  /** By name suffix: request bodies, response bodies, anything else. */
  datatype FileKind = RequestFile | ResponseFile | OtherFile

  datatype Usage = Usage(model: Option<string>, cacheCreate: nat, cacheRead: nat, id: Option<string>)

  /** What a stat and a read of a body file yield; files are write-once, so this depends on the name only. */
  datatype BodyFile = BodyFile(kind: FileKind, mtimeMs: nat, size: nat, session: Option<string>, model: Option<string>,
                               usage: Option<Usage>)

  /** A file name, of which only identity matters beyond its kind. */
  type Name = int

  type World = Name -> BodyFile

  const RESPONSE_PARSE_CAP := 5 * 1024 * 1024
  const HUGE_REQUEST_BYTES := 1_000_000
  const ATTRIB_REQUEST_BYTES := 400_000
  const LARGE_RING_WINDOW_MS := 10 * 60_000
  const RESPONSE_RING_WINDOW_MS := 15 * 60_000
  const SEED_LOOKBACK_MS := 15 * 60_000

  datatype RingEntry =
    | LargeRequest(t: nat, bytes: nat, huge: bool, sessionId: Option<string>, model: Option<string>)
    | Response(t: nat, usage: Usage)

  datatype Ring = LargeRing | ResponseRing {
    predicate Takes(f: BodyFile) {
      match this
      case LargeRing => f.kind.RequestFile? && f.size >= ATTRIB_REQUEST_BYTES
      case ResponseRing => f.kind.ResponseFile? && f.size <= RESPONSE_PARSE_CAP && f.usage.Some?
    }

    function WindowMs(): nat {
      match this
      case LargeRing => LARGE_RING_WINDOW_MS
      case ResponseRing => RESPONSE_RING_WINDOW_MS
    }
  }

  function EntryOf(f: BodyFile): (e: RingEntry)
    ensures e.t == f.mtimeMs
  {
    if f.kind.RequestFile? then LargeRequest(f.mtimeMs, f.size, f.size > HUGE_REQUEST_BYTES, f.session, f.model)
    else Response(f.mtimeMs, f.usage.GetOr(Usage(None, 0, 0, None)))
  }

  // ---- What a full scan would hold ----

  predicate Due(n: Name, ring: Ring, floor: int, world: World) {
    ring.Takes(world(n)) && world(n).mtimeMs >= floor
  }

  /** The ring a full scan of `names` would fill: one entry for each file it takes whose mtime is not
      before `floor`. */
  function FullScan(names: seq<Name>, ring: Ring, floor: int, world: World): seq<RingEntry> {
    if names == [] then []
    else
      FullScan(names[..|names| - 1], ring, floor, world)
      + if Due(names[|names| - 1], ring, floor, world) then [EntryOf(world(names[|names| - 1]))] else []
  }

  /** The large-request ring holds the request files of at least 400 kB from `floor` on, those over 1 MB marked as
      huge. */
  lemma {:induction false} LargeRingHolds(names: seq<Name>, floor: int, world: World, e: RingEntry)
    ensures e in FullScan(names, LargeRing, floor, world) <==>
              exists n :: n in names && var f := world(n);
                && f.kind == RequestFile && f.size >= 400_000 && f.mtimeMs >= floor
                && e == LargeRequest(f.mtimeMs, f.size, f.size > 1_000_000, f.session, f.model)
  {
    if names != [] {
      LargeRingHolds(names[..|names| - 1], floor, world, e);
      assert names == names[..|names| - 1] + [names[|names| - 1]];
    }
  }

  /** The response ring holds the usage of the parsed response files, of at most 5 MB, from `floor` on. */
  lemma {:induction false} ResponseRingHolds(names: seq<Name>, floor: int, world: World, e: RingEntry)
    ensures e in FullScan(names, ResponseRing, floor, world) <==>
              exists n :: n in names && var f := world(n);
                && f.kind == ResponseFile && f.size <= 5_242_880 && f.usage.Some? && f.mtimeMs >= floor
                && e == Response(f.mtimeMs, f.usage.value)
  {
    if names != [] {
      ResponseRingHolds(names[..|names| - 1], floor, world, e);
      assert names == names[..|names| - 1] + [names[|names| - 1]];
    }
  }

  function Prune(entries: seq<RingEntry>, floor: int): seq<RingEntry> {
    if entries == [] then []
    else
      Prune(entries[..|entries| - 1], floor)
      + if entries[|entries| - 1].t >= floor then [entries[|entries| - 1]] else []
  }

  /** Exactly the entries that are not before `floor` are left. */
  ghost predicate Survivors(after: seq<RingEntry>, before: seq<RingEntry>, floor: int) {
    forall e :: e in after <==> e in before && e.t >= floor
  }

  lemma {:induction false} PruneKeepsRecent(entries: seq<RingEntry>, floor: int)
    ensures Survivors(Prune(entries, floor), entries, floor)
  {
    if entries != [] {
      PruneKeepsRecent(entries[..|entries| - 1], floor);
      assert entries == entries[..|entries| - 1] + [entries[|entries| - 1]];
    }
  }

  /** The names of a listing that are looked at for the first time and can still be read. */
  function NewNames(listing: seq<Name>, seen: set<Name>, vanished: set<Name>): seq<Name> {
    if listing == [] then []
    else
      var n := listing[|listing| - 1];
      NewNames(listing[..|listing| - 1], seen, vanished) + if n !in seen && n !in vanished then [n] else []
  }

  lemma {:induction false} PruneSnoc(entries: seq<RingEntry>, e: RingEntry, floor: int)
    ensures Prune(entries + [e], floor) == Prune(entries, floor) + if e.t >= floor then [e] else []
  {
    assert (entries + [e])[..|entries|] == entries;
  }

  lemma {:induction false} PruneAppend(a: seq<RingEntry>, b: seq<RingEntry>, floor: int)
    ensures Prune(a + b, floor) == Prune(a, floor) + Prune(b, floor)
  {
    if b == [] {
      assert a + b == a;
    } else {
      assert a + b == (a + b[..|b| - 1]) + [b[|b| - 1]];
      PruneAppend(a, b[..|b| - 1], floor);
      PruneSnoc(a + b[..|b| - 1], b[|b| - 1], floor);
    }
  }

  lemma {:induction false} ScanAppend(a: seq<Name>, b: seq<Name>, ring: Ring, floor: int, world: World)
    ensures FullScan(a + b, ring, floor, world) == FullScan(a, ring, floor, world) + FullScan(b, ring, floor, world)
  {
    if b == [] {
      assert a + b == a;
    } else {
      assert (a + b)[..|a + b| - 1] == a + b[..|b| - 1];
      ScanAppend(a, b[..|b| - 1], ring, floor, world);
    }
  }

  /** Pruning a scan with a lower floor gives the scan with the higher one; a floor at or below zero
      excludes nothing. */
  lemma {:induction false} PruneScan(names: seq<Name>, ring: Ring, low: int, high: int, world: World)
    requires low <= high || low <= 0
    ensures Prune(FullScan(names, ring, low, world), high) == FullScan(names, ring, high, world)
  {
    if names != [] {
      var init, n := names[..|names| - 1], names[|names| - 1];
      PruneScan(init, ring, low, high, world);
      var before := FullScan(init, ring, low, world);
      if Due(n, ring, low, world) {
        PruneSnoc(before, EntryOf(world(n)), high);
        assert FullScan(names, ring, low, world) == before + [EntryOf(world(n))];
      } else {
        assert FullScan(names, ring, low, world) == before;
        assert FullScan(names, ring, high, world) == FullScan(init, ring, high, world);
      }
    }
  }

  lemma {:induction false} RingPruned(entries: seq<RingEntry>, ring: Ring, known: seq<Name>, low: int, high: int,
                                      world: World)
    requires entries == FullScan(known, ring, low, world) && low <= high
    ensures Prune(entries, high) == FullScan(known, ring, high, world) && Survivors(Prune(entries, high), entries, high)
  {
    PruneScan(known, ring, low, high, world);
    PruneKeepsRecent(entries, high);
  }

  /** The entries the first `i` listed names add to `ring`. */
  function Added(listing: seq<Name>, i: nat, seen: set<Name>, vanished: set<Name>, ring: Ring, floor: int,
                 world: World): seq<RingEntry>
    requires i <= |listing|
  {
    if i == 0 then []
    else
      var n := listing[i - 1];
      Added(listing, i - 1, seen, vanished, ring, floor, world)
      + if n !in seen && n !in vanished && Due(n, ring, floor, world) then [EntryOf(world(n))] else []
  }

  lemma {:induction false} AddedIsScan(listing: seq<Name>, i: nat, seen: set<Name>, vanished: set<Name>, ring: Ring,
                                       floor: int, world: World)
    requires i <= |listing|
    ensures Added(listing, i, seen, vanished, ring, floor, world)
            == FullScan(NewNames(listing[..i], seen, vanished), ring, floor, world)
  {
    if i > 0 {
      var n := listing[i - 1];
      assert listing[..i][..i - 1] == listing[..i - 1];
      AddedIsScan(listing, i - 1, seen, vanished, ring, floor, world);
      var before := NewNames(listing[..i - 1], seen, vanished);
      if n !in seen && n !in vanished {
        assert NewNames(listing[..i], seen, vanished) == before + [n];
        assert (before + [n])[..|before|] == before;
      } else {
        assert NewNames(listing[..i], seen, vanished) == before;
      }
    }
  }

  /** One ring across a whole pass. The seeding floor may skip history, but only what lies before the
      new window. */
  lemma {:induction false} RingAcrossPass(
    entries: seq<RingEntry>, ring: Ring, known: seq<Name>, lastNow: int, world: World,
    listing: seq<Name>, seen: set<Name>, vanished: set<Name>, seedFloor: int, now: int)
    requires entries == FullScan(known, ring, lastNow - ring.WindowMs(), world)
    requires lastNow <= now && (seedFloor == 0 || seedFloor == now - SEED_LOOKBACK_MS)
    ensures Prune(entries + Added(listing, |listing|, seen, vanished, ring, seedFloor, world), now - ring.WindowMs())
            == FullScan(known + NewNames(listing, seen, vanished), ring, now - ring.WindowMs(), world)
  {
    var floor, added := now - ring.WindowMs(), NewNames(listing, seen, vanished);
    assert listing[..|listing|] == listing;
    AddedIsScan(listing, |listing|, seen, vanished, ring, seedFloor, world);
    PruneAppend(entries, FullScan(added, ring, seedFloor, world), floor);
    PruneScan(known, ring, lastNow - ring.WindowMs(), floor, world);
    PruneScan(added, ring, seedFloor, floor, world);
    ScanAppend(known, added, ring, floor, world);
  }

  // ---- Which names count as known ----

  function SetOf(names: seq<Name>): set<Name> {
    set n | n in names
  }

  lemma {:induction false} SetStep(names: seq<Name>, i: nat)
    requires Distinct(names) && i < |names|
    ensures SetOf(names[..i + 1]) == SetOf(names[..i]) + {names[i]}
    ensures names[i] !in SetOf(names[..i])
  {
    assert names[..i + 1] == names[..i] + [names[i]];
  }

  ghost predicate Distinct(names: seq<Name>) {
    forall i, j :: 0 <= i < j < |names| ==> names[i] != names[j]
  }

  /** `last` is the latest listing, `past` all names ever listed, `known` those among them that could be
      read when they were new. */
  ghost predicate NamesInv(seen: set<Name>, last: seq<Name>, past: set<Name>, known: seq<Name>) {
    && (forall n :: n in last ==> n in seen) && (forall n :: n in seen ==> n in past)
    && (forall n :: n in known ==> n in past) && Distinct(known)
  }

  lemma {:induction false} NewNamesAreNew(listing: seq<Name>, seen: set<Name>, vanished: set<Name>)
    requires Distinct(listing)
    ensures Distinct(NewNames(listing, seen, vanished))
    ensures forall n :: n in NewNames(listing, seen, vanished) <==> n in listing && n !in seen && n !in vanished
  {
    if listing != [] {
      var init, n := listing[..|listing| - 1], listing[|listing| - 1];
      NewNamesAreNew(init, seen, vanished);
      assert listing == init + [n];
    }
  }

  /** On a listing without names that left an earlier one, unseen means never listed. */
  lemma {:induction false} UnseenMeansNeverListed(seen: set<Name>, last: seq<Name>, past: set<Name>, known: seq<Name>,
                                                  listing: seq<Name>, vanished: set<Name>)
    requires NamesInv(seen, last, past, known) && forall n :: n in listing && n in past ==> n in last
    ensures NewNames(listing, seen, vanished) == NewNames(listing, past, vanished)
  {
    if listing != [] {
      UnseenMeansNeverListed(seen, last, past, known, listing[..|listing| - 1], vanished);
      assert listing[|listing| - 1] in listing;
    }
  }

  /** When names that left a listing never come back, no file is known twice,
      also after the seen set was rebuilt from the listing. */
  lemma {:induction false} NamesAcrossPass(seen: set<Name>, last: seq<Name>, past: set<Name>, known: seq<Name>,
                                           listing: seq<Name>, vanished: set<Name>)
    returns (past': set<Name>, known': seq<Name>)
    requires NamesInv(seen, last, past, known) && Distinct(listing)
    requires forall n :: n in listing && n in past ==> n in last
    ensures past' == past + SetOf(listing) && known' == known + NewNames(listing, past, vanished)
    ensures NamesInv(seen + SetOf(listing), listing, past', known') && NamesInv(SetOf(listing), listing, past', known')
  {
    NewNamesAreNew(listing, past, vanished);
    var added := NewNames(listing, past, vanished);
    past', known' := past + SetOf(listing), known + added;
    forall i, j | 0 <= i < j < |known + added| ensures (known + added)[i] != (known + added)[j] {
      if i < |known| && j >= |known| { assert known[i] in known && added[j - |known|] in added; }
    }
  }

  class BodiesActivityTracker {
    const world: World
    var seen: set<Name>
    var seeded: bool
    var largeRequests: seq<RingEntry>
    var responses: seq<RingEntry>

    ghost var last: seq<Name>
    ghost var past: set<Name>
    ghost var known: seq<Name>
    ghost var lastNow: int

    /** Both rings hold exactly what a full scan of the known files would put there, each file once. */
    ghost predicate Valid()
      reads this
    {
      && NamesInv(seen, last, past, known)
      && largeRequests == FullScan(known, LargeRing, lastNow - LARGE_RING_WINDOW_MS, world)
      && responses == FullScan(known, ResponseRing, lastNow - RESPONSE_RING_WINDOW_MS, world)
    }

    constructor (world: World, ghost start: int)
      ensures Valid() && this.world == world && known == [] && past == {} && lastNow == start
    {
      this.world := world;
      seen, seeded, largeRequests, responses := {}, false, [], [];
      last, past, known, lastNow := [], {}, [], start;
    }

    /** Stats and reads one file not seen before, and pushes it into the ring that takes it. */
    method Examine(name: Name, vanished: set<Name>, seedFloor: int)
      modifies this`largeRequests, this`responses
      ensures largeRequests == old(largeRequests) +
        if name !in vanished && Due(name, LargeRing, seedFloor, world) then [EntryOf(world(name))] else []
      ensures responses == old(responses) +
        if name !in vanished && Due(name, ResponseRing, seedFloor, world) then [EntryOf(world(name))] else []
    {
      var f := world(name);
      if f.kind.OtherFile? || name in vanished || f.mtimeMs < seedFloor {
        return;
      }
      if f.kind.RequestFile? {
        if f.size >= ATTRIB_REQUEST_BYTES {
          largeRequests := largeRequests + [EntryOf(f)];
        }
        return;
      }
      if f.size > RESPONSE_PARSE_CAP || f.usage.None? {
        return;
      }
      responses := responses + [EntryOf(f)];
    }

    /** Goes through a listing and examines the names not seen before. */
    method RecordUnseen(names: seq<Name>, vanished: set<Name>, seedFloor: int)
      requires Distinct(names)
      modifies this`seen, this`largeRequests, this`responses
      ensures seen == old(seen) + SetOf(names)
      ensures largeRequests
              == old(largeRequests) + Added(names, |names|, old(seen), vanished, LargeRing, seedFloor, world)
      ensures responses == old(responses) + Added(names, |names|, old(seen), vanished, ResponseRing, seedFloor, world)
    {
      for i := 0 to |names|
        invariant seen == old(seen) + SetOf(names[..i])
        invariant largeRequests
                  == old(largeRequests) + Added(names, i, old(seen), vanished, LargeRing, seedFloor, world)
        invariant responses == old(responses) + Added(names, i, old(seen), vanished, ResponseRing, seedFloor, world)
      {
        SetStep(names, i);
        if names[i] in seen {
          continue;
        }
        seen := seen + {names[i]};
        Examine(names[i], vanished, seedFloor);
      }
      assert names[..|names|] == names;
    }

    /** Drops what lies before the rings' windows. */
    method DropOlder(now: int)
      modifies this`largeRequests, this`responses
      ensures largeRequests == Prune(old(largeRequests), now - LARGE_RING_WINDOW_MS)
      ensures responses == Prune(old(responses), now - RESPONSE_RING_WINDOW_MS)
    {
      largeRequests := Prune(largeRequests, now - LARGE_RING_WINDOW_MS);
      responses := Prune(responses, now - RESPONSE_RING_WINDOW_MS);
    }

    /** Every report between two polls prunes the rings first: they hold what a full scan would hold now, which is what
        they held before and is still inside its window. */
    method PruneRings(now: int)
      requires Valid() && now >= lastNow
      modifies this`largeRequests, this`responses, this`lastNow
      ensures Valid() && lastNow == now
      ensures Survivors(largeRequests, old(largeRequests), now - 600_000)
      ensures Survivors(responses, old(responses), now - 900_000)
    {
      RingPruned(largeRequests, LargeRing, known, lastNow - LARGE_RING_WINDOW_MS, now - LARGE_RING_WINDOW_MS, world);
      RingPruned(responses, ResponseRing, known, lastNow - RESPONSE_RING_WINDOW_MS, now - RESPONSE_RING_WINDOW_MS,
        world);
      DropOlder(now);
      lastNow := now;
    }

    /** The part of a pass that touches the rings and the seen set, which is rebuilt from the listing when
        it has outgrown it. */
    method UpdateRings(names: seq<Name>, vanished: set<Name>, now: int)
      requires Valid() && now >= lastNow && Distinct(names) && forall n :: n in names && n in past ==> n in last
      modifies this`seen, this`seeded, this`largeRequests, this`responses
      ensures seen == old(seen) + SetOf(names) || seen == SetOf(names)
      ensures largeRequests
              == FullScan(known + NewNames(names, past, vanished), LargeRing, now - LARGE_RING_WINDOW_MS, world)
      ensures responses
              == FullScan(known + NewNames(names, past, vanished), ResponseRing, now - RESPONSE_RING_WINDOW_MS, world)
    {
      UnseenMeansNeverListed(seen, last, past, known, names, vanished);
      var seedFloor := if seeded then 0 else now - SEED_LOOKBACK_MS;
      RingAcrossPass(largeRequests, LargeRing, known, lastNow, world, names, seen, vanished, seedFloor, now);
      RingAcrossPass(responses, ResponseRing, known, lastNow, world, names, seen, vanished, seedFloor, now);
      RecordUnseen(names, vanished, seedFloor);
      seeded := true;
      DropOlder(now);
      if |seen| > |names| * 2 + 512 {
        seen := SetOf(names);
      }
    }

    /** One pass over the directory listing; None when the directory is absent. `vanished` are the listed
        files that disappear before they can be read. Names that left a listing never come back. */
    method Poll(listing: Option<seq<Name>>, vanished: set<Name>, now: int)
      requires Valid() && now >= lastNow
      requires listing.Some? ==> Distinct(listing.value) && forall n :: n in listing.value && n in past ==> n in last
      modifies this
      ensures Valid()
      ensures listing.None? ==> unchanged(this)
      ensures listing.Some? ==>
        && lastNow == now && last == listing.value && past == old(past) + SetOf(last)
        && known == old(known) + NewNames(last, old(past), vanished)
        && largeRequests == FullScan(known, LargeRing, now - 600_000, world)
        && responses == FullScan(known, ResponseRing, now - 900_000, world)
    {
      if listing.None? {
        return;
      }
      var names := listing.value;
      ghost var past', known' := NamesAcrossPass(seen, last, past, known, names, vanished);
      UpdateRings(names, vanished, now);
      last, past, known, lastNow := names, past', known', now;
    }
  }
}
