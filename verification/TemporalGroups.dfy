/** Greedy grouping of replayed spans into time windows, and why it uses the fewest groups. */
module TemporalGroups {
  import StableSort

  /** A captured span: its start time in nanoseconds and whatever else it carries. */
  datatype Span = Span(startTime: int, payload: int)

  type Groups = seq<seq<Span>>

  function StartOf(s: Span): int {
    s.startTime
  }

  ghost predicate Ordered(spans: seq<Span>) {
    forall i, j :: 0 <= i < j < |spans| ==> spans[i].startTime <= spans[j].startTime
  }

  ghost predicate Occurs(t: int, spans: seq<Span>) {
    exists k :: 0 <= k < |spans| && spans[k].startTime == t
  }

  function Concat(groups: Groups): seq<Span> {
    if groups == [] then [] else Concat(groups[..|groups| - 1]) + groups[|groups| - 1]
  }

  /** A non-empty group no two of whose spans start more than `window` apart. */
  ghost predicate Narrow(g: seq<Span>, window: nat) {
    g != [] && forall i, j :: 0 <= i < |g| && 0 <= j < |g| ==> g[j].startTime - g[i].startTime <= window
  }

  ghost predicate AllNarrow(groups: Groups, window: nat) {
    forall i :: 0 <= i < |groups| ==> Narrow(groups[i], window)
  }

  /** Neighbouring groups start more than `window` apart. */
  ghost predicate Spread(groups: Groups, window: nat) {
    (forall i :: 0 <= i < |groups| ==> groups[i] != [])
    && forall i, j :: 0 <= i && j == i + 1 && j < |groups| ==> groups[j][0].startTime - groups[i][0].startTime > window
  }

  lemma {:induction false} ConcatSnoc(groups: Groups, g: seq<Span>)
    ensures Concat(groups + [g]) == Concat(groups) + g
  {
    assert (groups + [g])[..|groups|] == groups;
  }

  /** The bucket being filled after the finished `groups`. */
  ghost predicate Filling(groups: Groups, bucket: seq<Span>, window: nat) {
    && AllNarrow(groups, window) && Spread(groups, window)
    && (bucket == [] ==> groups == [])
    && (forall k :: 0 <= k < |bucket| ==> 0 <= bucket[k].startTime - bucket[0].startTime <= window)
    && (groups != [] ==> bucket[0].startTime - groups[|groups| - 1][0].startTime > window)
  }

  /** What the loop has done with the first `i` sorted spans. */
  ghost predicate Progress(sorted: seq<Span>, i: nat, groups: Groups, bucket: seq<Span>, bucketStart: int,
                           window: nat) {
    && i <= |sorted| && Concat(groups) + bucket == sorted[..i]
    && Filling(groups, bucket, window)
    && (bucket == [] <==> i == 0)
    && (i == 0 ==> groups == [])
    && (sorted != [] ==> bucketStart == if bucket == [] then sorted[0].startTime else bucket[0].startTime)
  }

  lemma {:induction false} CloseBucket(groups: Groups, bucket: seq<Span>, window: nat)
    requires Filling(groups, bucket, window) && bucket != []
    ensures AllNarrow(groups + [bucket], window) && Spread(groups + [bucket], window)
    ensures Concat(groups + [bucket]) == Concat(groups) + bucket
  {
    ConcatSnoc(groups, bucket);
    BucketIsNarrow(bucket, window);
    var all := groups + [bucket];
    forall i | 0 <= i < |all| ensures Narrow(all[i], window) && all[i] != [] {
      if i < |groups| { assert Narrow(groups[i], window); }
    }
    forall i, j | 0 <= i && j == i + 1 && j < |all| ensures all[j][0].startTime - all[i][0].startTime > window {
      assert all[i] == groups[i];
    }
  }

  lemma {:induction false} BucketIsNarrow(bucket: seq<Span>, window: nat)
    requires bucket != [] && forall k :: 0 <= k < |bucket| ==> 0 <= bucket[k].startTime - bucket[0].startTime <= window
    ensures Narrow(bucket, window)
  {
    forall i, j | 0 <= i < |bucket| && 0 <= j < |bucket| ensures bucket[j].startTime - bucket[i].startTime <= window {}
  }

  /** The bucket's first span is not after the next one. */
  lemma {:induction false} NextNotEarlier(sorted: seq<Span>, i: nat, groups: Groups, bucket: seq<Span>,
                                          bucketStart: int, window: nat)
    requires Ordered(sorted) && Progress(sorted, i, groups, bucket, bucketStart, window) && i < |sorted|
    ensures bucketStart <= sorted[i].startTime
  {
    if bucket != [] {
      assert bucket[0] == sorted[..i][|Concat(groups)|] == sorted[|Concat(groups)|];
    }
  }

  lemma {:induction false} JoinsBucket(sorted: seq<Span>, i: nat, groups: Groups, bucket: seq<Span>, bucketStart: int,
                                       window: nat)
    requires Ordered(sorted) && Progress(sorted, i, groups, bucket, bucketStart, window)
    requires i < |sorted| && sorted[i].startTime - bucketStart <= window
    ensures Progress(sorted, i + 1, groups, bucket + [sorted[i]], bucketStart, window)
  {
    NextNotEarlier(sorted, i, groups, bucket, bucketStart, window);
    assert sorted[..i + 1] == Concat(groups) + (bucket + [sorted[i]]);
  }

  lemma {:induction false} StartsBucket(sorted: seq<Span>, i: nat, groups: Groups, bucket: seq<Span>, bucketStart: int,
                                        window: nat)
    requires Progress(sorted, i, groups, bucket, bucketStart, window)
    requires i < |sorted| && sorted[i].startTime - bucketStart > window
    ensures Progress(sorted, i + 1, groups + [bucket], [sorted[i]], sorted[i].startTime, window)
  {
    CloseBucket(groups, bucket, window);
    assert sorted[..i + 1] == (Concat(groups) + bucket) + [sorted[i]];
  }

  method GroupByTime(spans: seq<Span>, window: nat) returns (groups: Groups)
    ensures Concat(groups) == StableSort.Sort(spans, StartOf)
    ensures Ordered(Concat(groups)) && AllNarrow(groups, window) && Spread(groups, window)
  {
    var sorted := StableSort.Sort(spans, StartOf);
    SortedStarts(spans);
    groups := [];
    var bucket: seq<Span> := [];
    var bucketStart := if sorted == [] then 0 else sorted[0].startTime;
    for i := 0 to |sorted|
      invariant Progress(sorted, i, groups, bucket, bucketStart, window)
    {
      var s := sorted[i];
      if s.startTime - bucketStart <= window {
        JoinsBucket(sorted, i, groups, bucket, bucketStart, window);
        bucket := bucket + [s];
      } else {
        StartsBucket(sorted, i, groups, bucket, bucketStart, window);
        groups := groups + [bucket];
        bucket := [s];
        bucketStart := s.startTime;
      }
    }
    assert Concat(groups) + bucket == sorted;
    if |bucket| > 0 {
      CloseBucket(groups, bucket, window);
      groups := groups + [bucket];
    }
  }

  lemma {:induction false} SortedStarts(spans: seq<Span>)
    ensures Ordered(StableSort.Sort(spans, StartOf))
  {
    StableSort.SortSorts(spans, StartOf);
    var sorted := StableSort.Sort(spans, StartOf);
    forall i, j | 0 <= i < j < |sorted| ensures sorted[i].startTime <= sorted[j].startTime {
      assert StartOf(sorted[i]) <= StartOf(sorted[j]);
    }
  }

  // ---- Fewest groups ----

  /** Instants that all occur in the grouped spans and lie pairwise more than `window` apart. */
  ghost predicate Apart(times: seq<int>, spans: seq<Span>, window: nat) {
    && (forall i, j :: 0 <= i && j == i + 1 && j < |times| ==> times[j] - times[i] > window)
    && (forall i :: 0 <= i < |times| ==> Occurs(times[i], spans))
  }

  lemma {:induction false} ApartIncreases(times: seq<int>, window: nat, i: nat, j: nat)
    requires forall a, b :: 0 <= a && b == a + 1 && b < |times| ==> times[b] - times[a] > window
    requires i < j < |times|
    ensures times[j] - times[i] > window
    decreases j - i
  {
    if i + 1 < j { ApartIncreases(times, window, i, j - 1); }
  }

  /** Any narrow split needs a group of its own for each of the instants. */
  lemma {:induction false} OneGroupEach(groups: Groups, times: seq<int>, window: nat)
    requires AllNarrow(groups, window) && Apart(times, Concat(groups), window)
    requires Ordered(Concat(groups))
    ensures |times| <= |groups|
  {
    if times != [] {
      assert Occurs(times[0], Concat(groups));
      assert groups != [];
      var init, last, all := groups[..|groups| - 1], groups[|groups| - 1], Concat(groups);
      var rest, t := times[..|times| - 1], times[|times| - 1];
      forall i | 0 <= i < |rest| ensures Occurs(rest[i], Concat(init)) {
        ApartIncreases(times, window, i, |times| - 1);
        EarlierInstantElsewhere(groups, init, last, times[i], t, window);
      }
      assert forall i, j :: 0 <= i < j < |Concat(init)| ==> Concat(init)[i] == all[i] && Concat(init)[j] == all[j];
      OneGroupEach(init, rest, window);
    }
  }

  /** Of two instants more than `window` apart, the earlier is not in the last group. */
  lemma {:induction false} EarlierInstantElsewhere(groups: Groups, init: Groups, last: seq<Span>, early: int,
                                                   late: int, window: nat)
    requires groups == init + [last] && Narrow(last, window) && late - early > window
    requires Ordered(Concat(groups)) && Occurs(early, Concat(groups)) && Occurs(late, Concat(groups))
    ensures Occurs(early, Concat(init))
  {
    var all := Concat(groups);
    assert groups[..|groups| - 1] == init && all == Concat(init) + last;
    var a :| 0 <= a < |all| && all[a].startTime == early;
    var b :| 0 <= b < |all| && all[b].startTime == late;
    assert a < b;
    var n := |Concat(init)|;
    assert a < n by {
      assert forall i :: n <= i < |all| ==> all[i] == last[i - n];
    }
    assert Concat(init)[a].startTime == early;
  }

  function Starts(groups: Groups): (times: seq<int>)
    requires forall i :: 0 <= i < |groups| ==> groups[i] != []
    ensures |times| == |groups| && forall i :: 0 <= i < |groups| ==> times[i] == groups[i][0].startTime
  {
    seq(|groups|, i requires 0 <= i < |groups| => groups[i][0].startTime)
  }

  lemma {:induction false} GroupStartsOccur(groups: Groups, i: nat)
    requires i < |groups| && groups[i] != []
    ensures Occurs(groups[i][0].startTime, Concat(groups))
  {
    var init := groups[..|groups| - 1];
    if i < |init| {
      GroupStartsOccur(init, i);
      var k :| 0 <= k < |Concat(init)| && Concat(init)[k].startTime == groups[i][0].startTime;
      assert Concat(groups)[k] == Concat(init)[k];
    } else {
      assert Concat(groups)[|Concat(init)|] == groups[i][0];
    }
  }

  /** No split of the sorted spans into narrow groups uses fewer groups than the greedy one. */
  lemma {:induction false} GreedyUsesFewestGroups(greedy: Groups, other: Groups, window: nat)
    requires Spread(greedy, window) && AllNarrow(other, window) && Concat(other) == Concat(greedy)
    requires Ordered(Concat(greedy))
    ensures |greedy| <= |other|
  {
    var times := Starts(greedy);
    forall i | 0 <= i < |times| ensures Occurs(times[i], Concat(other)) {
      GroupStartsOccur(greedy, i);
    }
    OneGroupEach(other, times, window);
  }
}
