/** Burn investigation over the captured responses: spike clusters and the peak 30-minute call rate. */
module BurnInvestigator {
  import Sums

  const SPIKE_CC := 100_000
  const CLUSTER_MS := 10 * 60_000
  const BURST_MS := 30 * 60_000

  /** One usage-bearing response: when, on which model, tokens written to and read from the cache. */
  datatype Resp = Resp(ts: int, model: string, cc: int, cr: int)

  datatype Cluster = Cluster(spikes: seq<Resp>, fromTs: int, toTs: int, cc: int, coldSpikes: int)

  predicate Ordered(calls: seq<Resp>) {
    forall i, j :: 0 <= i < j < |calls| ==> calls[i].ts <= calls[j].ts
  }

  function ModelOf(r: Resp): string { r.model }

  function Written(r: Resp): int { r.cc }

  /** 1 for a spike that read back less than a tenth of what it wrote. */
  function Cold(r: Resp): int {
    if 10 * r.cr < r.cc then 1 else 0
  }

  // ---- The burst ----

  /** How many calls fall into the closed window from `from` to `to`. */
  function CallsIn(calls: seq<Resp>, from: int, to: int): nat {
    if calls == [] then 0
    else CallsIn(calls[..|calls| - 1], from, to) + if from <= calls[|calls| - 1].ts <= to then 1 else 0
  }

  /** The calls in the closed half hour that begins at `from`. */
  function HalfHour(calls: seq<Resp>, from: int): nat {
    CallsIn(calls, from, from + BURST_MS)
  }

  /** No 30-minute window holds more than `n` of the calls. */
  ghost predicate Peak(calls: seq<Resp>, n: nat) {
    forall from: int :: HalfHour(calls, from) <= n
  }

  lemma {:induction false} CallsOutside(calls: seq<Resp>, j: nat, from: int, to: int)
    requires j <= |calls| && forall k :: 0 <= k < j ==> calls[k].ts < from
    ensures CallsIn(calls, from, to) <= |calls| - j
  {
    if calls != [] {
      if j == |calls| {
        CallsOutside(calls[..|calls| - 1], j - 1, from, to);
      } else {
        CallsOutside(calls[..|calls| - 1], j, from, to);
      }
    }
  }

  lemma {:induction false} CallsInside(calls: seq<Resp>, j: nat, from: int, to: int)
    requires j <= |calls| && forall k :: j <= k < |calls| ==> from <= calls[k].ts <= to
    ensures CallsIn(calls, from, to) >= |calls| - j
  {
    if j < |calls| { CallsInside(calls[..|calls| - 1], j, from, to); }
  }

  /** The next call raises the peak to at most the calls from `j` up to it. */
  lemma {:induction false} PeakAdvances(calls: seq<Resp>, i: nat, j: nat, n: nat)
    requires Ordered(calls) && j <= i < |calls| && Peak(calls[..i], n)
    requires forall k :: 0 <= k < j ==> calls[i].ts - calls[k].ts > BURST_MS
    ensures Peak(calls[..i + 1], if n < i - j + 1 then i - j + 1 else n)
  {
    var seen := calls[..i + 1];
    assert seen[..|seen| - 1] == calls[..i];
    forall from: int
      ensures HalfHour(seen, from) <= if n < i - j + 1 then i - j + 1 else n
    {
      assert HalfHour(calls[..i], from) <= n;
      if from <= calls[i].ts <= from + BURST_MS {
        CallsOutside(seen, j, from, from + BURST_MS);
      }
    }
  }

  /** The two-pointer sweep: the largest number of calls any closed 30-minute window holds. */
  method Burst(calls: seq<Resp>) returns (burst: nat)
    requires Ordered(calls)
    ensures Peak(calls, burst)
    ensures exists from: int :: HalfHour(calls, from) == burst
  {
    burst := 0;
    var j := 0;
    ghost var best := 0;
    for i := 0 to |calls|
      invariant j <= i && (i < |calls| ==> forall k :: 0 <= k < j ==> calls[i].ts - calls[k].ts > BURST_MS)
      invariant Peak(calls[..i], burst)
      invariant HalfHour(calls[..i], best) >= burst
    {
      while calls[i].ts - calls[j].ts > BURST_MS
        invariant j <= i
        invariant forall k :: 0 <= k < j ==> calls[i].ts - calls[k].ts > BURST_MS
        decreases i - j
      {
        j := j + 1;
      }
      PeakAdvances(calls, i, j, burst);
      assert calls[..i + 1][..i] == calls[..i];
      if burst < i - j + 1 {
        burst := i - j + 1;
        best := calls[i].ts - BURST_MS;
        CallsInside(calls[..i + 1], j, best, best + BURST_MS);
      }
    }
    assert calls[..|calls|] == calls;
  }

  /** One model's calls, picked from the time-ordered responses, are time-ordered themselves. */
  lemma {:induction false} GroupKeepsOrder(resps: seq<Resp>, model: string)
    requires Ordered(resps)
    ensures Ordered(Sums.Group(resps, ModelOf, model))
    ensures forall r :: r in Sums.Group(resps, ModelOf, model) ==> r in resps
  {
    if resps != [] {
      var init := resps[..|resps| - 1];
      GroupKeepsOrder(init, model);
      assert forall r :: r in init ==> r.ts <= resps[|resps| - 1].ts;
    }
  }

  /** The peak 30-minute rate of one model among all responses. */
  method PeakOfModel(resps: seq<Resp>, model: string) returns (burst: nat)
    requires Ordered(resps)
    ensures Peak(Sums.Group(resps, ModelOf, model), burst)
    ensures exists from: int :: HalfHour(Sums.Group(resps, ModelOf, model), from) == burst
  {
    GroupKeepsOrder(resps, model);
    burst := Burst(Sums.Group(resps, ModelOf, model));
  }

  // ---- Spike clusters ----

  /** The responses that wrote a whole prefix, in order. */
  function Spikes(resps: seq<Resp>): seq<Resp> {
    if resps == [] then []
    else Spikes(resps[..|resps| - 1]) + if resps[|resps| - 1].cc > SPIKE_CC then [resps[|resps| - 1]] else []
  }

  function ClusteredSpikes(clusters: seq<Cluster>): seq<Resp> {
    if clusters == [] then []
    else ClusteredSpikes(clusters[..|clusters| - 1]) + clusters[|clusters| - 1].spikes
  }

  /** A run of spikes each at most ten minutes after the one before. */
  ghost predicate Chain(spikes: seq<Resp>) {
    spikes != [] && forall j, k :: 0 <= j && k == j + 1 && k < |spikes| ==> spikes[k].ts - spikes[j].ts <= CLUSTER_MS
  }

  /** The cluster's figures are those of its spikes. */
  ghost predicate Describes(c: Cluster) {
    && c.spikes != [] && c.fromTs == c.spikes[0].ts && c.toTs == c.spikes[|c.spikes| - 1].ts
    && c.cc == Sums.Total(c.spikes, Written) && c.coldSpikes == Sums.Total(c.spikes, Cold)
  }

  /** Chains that cannot be joined: each starts more than ten minutes after the one before it ended. */
  ghost predicate MaximalChains(clusters: seq<Cluster>) {
    clusters == [] ||
    var init, last := clusters[..|clusters| - 1], clusters[|clusters| - 1];
    && MaximalChains(init) && Chain(last.spikes) && Describes(last)
    && (init == [] || last.fromTs - init[|init| - 1].toTs > CLUSTER_MS)
  }

  lemma {:induction false} NewCluster(clusters: seq<Cluster>, c: Cluster)
    requires MaximalChains(clusters) && Chain(c.spikes) && Describes(c)
    requires clusters != [] ==> c.fromTs - clusters[|clusters| - 1].toTs > CLUSTER_MS
    ensures MaximalChains(clusters + [c]) && ClusteredSpikes(clusters + [c]) == ClusteredSpikes(clusters) + c.spikes
  {
    assert (clusters + [c])[..|clusters|] == clusters;
  }

  function SoloCluster(s: Resp): Cluster {
    Cluster([s], s.ts, s.ts, s.cc, Cold(s))
  }

  lemma {:induction false} SoloIsChain(s: Resp)
    ensures Chain(SoloCluster(s).spikes) && Describes(SoloCluster(s))
  {
    Sums.TotalAppend([], s, Written);
    Sums.TotalAppend([], s, Cold);
    assert [] + [s] == [s];
  }

  lemma {:induction false} AddSolo(clusters: seq<Cluster>, s: Resp)
    requires MaximalChains(clusters)
    requires clusters == [] || s.ts - clusters[|clusters| - 1].toTs > CLUSTER_MS
    ensures MaximalChains(clusters + [SoloCluster(s)])
    ensures ClusteredSpikes(clusters + [SoloCluster(s)]) == ClusteredSpikes(clusters) + [s]
  {
    SoloIsChain(s);
    NewCluster(clusters, SoloCluster(s));
  }

  /** A cluster with one more spike behind its last. */
  function Grown(c: Cluster, s: Resp): Cluster {
    Cluster(c.spikes + [s], c.fromTs, s.ts, c.cc + s.cc, c.coldSpikes + Cold(s))
  }

  lemma {:induction false} GrownIsChain(c: Cluster, s: Resp)
    requires Chain(c.spikes) && Describes(c) && s.ts - c.toTs <= CLUSTER_MS
    ensures Chain(Grown(c, s).spikes) && Describes(Grown(c, s))
  {
    Sums.TotalAppend(c.spikes, s, Written);
    Sums.TotalAppend(c.spikes, s, Cold);
  }

  lemma {:induction false} GrownCluster(clusters: seq<Cluster>, s: Resp)
    requires clusters != [] && MaximalChains(clusters)
    requires s.ts - clusters[|clusters| - 1].toTs <= CLUSTER_MS
    ensures var init, last := clusters[..|clusters| - 1], clusters[|clusters| - 1];
            && MaximalChains(init + [Grown(last, s)])
            && ClusteredSpikes(init + [Grown(last, s)]) == ClusteredSpikes(clusters) + [s]
  {
    GrownIsChain(clusters[|clusters| - 1], s);
    NewCluster(clusters[..|clusters| - 1], Grown(clusters[|clusters| - 1], s));
  }

  method ClusterSpikes(resps: seq<Resp>) returns (clusters: seq<Cluster>)
    ensures ClusteredSpikes(clusters) == Spikes(resps)
    ensures MaximalChains(clusters)
  {
    clusters := [];
    var spikes := Spikes(resps);
    for i := 0 to |spikes|
      invariant MaximalChains(clusters) && ClusteredSpikes(clusters) == spikes[..i]
    {
      var s := spikes[i];
      assert spikes[..i + 1] == spikes[..i] + [s];
      if |clusters| > 0 && s.ts - clusters[|clusters| - 1].toTs <= CLUSTER_MS {
        GrownCluster(clusters, s);
        clusters := clusters[..|clusters| - 1] + [Grown(clusters[|clusters| - 1], s)];
      } else {
        AddSolo(clusters, s);
        clusters := clusters + [SoloCluster(s)];
      }
    }
    assert spikes[..|spikes|] == spikes;
  }

  /** The gap in front of the last cluster is wide, every gap inside it is not. */
  lemma {:induction false} LastClusterGaps(a: seq<Cluster>)
    requires MaximalChains(a) && a != []
    ensures var all, n := ClusteredSpikes(a), |ClusteredSpikes(a[..|a| - 1])|;
            && all == ClusteredSpikes(a[..|a| - 1]) + a[|a| - 1].spikes
            && (n == 0 <==> |a| == 1)
            && (n > 0 ==> all[n].ts - all[n - 1].ts > CLUSTER_MS)
            && forall q :: n <= q - 1 < |all| - 1 ==> all[q].ts - all[q - 1].ts <= CLUSTER_MS
  {
    var all, init, last := ClusteredSpikes(a), a[..|a| - 1], a[|a| - 1].spikes;
    var n := |ClusteredSpikes(init)|;
    if init != [] {
      var prev := init[|init| - 1].spikes;
      assert ClusteredSpikes(init) == ClusteredSpikes(init[..|init| - 1]) + prev;
      assert all[n - 1] == prev[|prev| - 1] && all[n] == last[0];
    }
    forall q | n <= q - 1 < |all| - 1 ensures all[q].ts - all[q - 1].ts <= CLUSTER_MS {
      assert all[q] == last[q - 1 - n + 1] && all[q - 1] == last[q - 1 - n];
    }
  }

  lemma {:induction false} NoSpikesNoClusters(a: seq<Cluster>)
    requires MaximalChains(a)
    ensures ClusteredSpikes(a) == [] <==> a == []
  {
    if a != [] { LastClusterGaps(a); }
  }

  lemma {:induction false} SameLastCluster(a: seq<Cluster>, b: seq<Cluster>)
    requires MaximalChains(a) && MaximalChains(b) && ClusteredSpikes(a) == ClusteredSpikes(b)
    requires a != [] && b != []
    ensures ClusteredSpikes(a[..|a| - 1]) == ClusteredSpikes(b[..|b| - 1]) && a[|a| - 1] == b[|b| - 1]
  {
    LastClusterGaps(a);
    LastClusterGaps(b);
    var all, m, n := ClusteredSpikes(a), |ClusteredSpikes(a[..|a| - 1])|, |ClusteredSpikes(b[..|b| - 1])|;
    assert Chain(a[|a| - 1].spikes) && Chain(b[|b| - 1].spikes);
    assert m < |all| && n < |all|;
    assert m == n;
    assert ClusteredSpikes(a[..|a| - 1]) == all[..m] && a[|a| - 1].spikes == all[m..];
    assert ClusteredSpikes(b[..|b| - 1]) == all[..n] && b[|b| - 1].spikes == all[n..];
    assert Describes(a[|a| - 1]) && Describes(b[|b| - 1]);
  }

  /** The clusters are determined by the spikes: there is one way to split them into maximal chains. */
  lemma {:induction false} ClustersUnique(a: seq<Cluster>, b: seq<Cluster>)
    requires MaximalChains(a) && MaximalChains(b) && ClusteredSpikes(a) == ClusteredSpikes(b)
    ensures a == b
    decreases |a|
  {
    NoSpikesNoClusters(a);
    NoSpikesNoClusters(b);
    if a != [] {
      SameLastCluster(a, b);
      ClustersUnique(a[..|a| - 1], b[..|b| - 1]);
      assert a == a[..|a| - 1] + [a[|a| - 1]] && b == b[..|b| - 1] + [b[|b| - 1]];
    }
  }

  function ClusterCc(c: Cluster): int { c.cc }

  function ClusterCold(c: Cluster): int { c.coldSpikes }

  lemma {:induction false} TotalConcat(s: seq<Resp>, t: seq<Resp>, w: Resp -> int)
    ensures Sums.Total(s + t, w) == Sums.Total(s, w) + Sums.Total(t, w)
  {
    if t == [] {
      assert s + t == s;
    } else {
      TotalConcat(s, t[..|t| - 1], w);
      assert (s + t)[..|s + t| - 1] == s + t[..|t| - 1];
    }
  }

  /** Cluster totals lose and double no token: they add up to what the spikes wrote. */
  lemma {:induction false} ClustersConserveTokens(clusters: seq<Cluster>)
    requires MaximalChains(clusters)
    ensures Sums.Total(clusters, ClusterCc) == Sums.Total(ClusteredSpikes(clusters), Written)
    ensures Sums.Total(clusters, ClusterCold) == Sums.Total(ClusteredSpikes(clusters), Cold)
  {
    if clusters != [] {
      var init, last := clusters[..|clusters| - 1], clusters[|clusters| - 1];
      ClustersConserveTokens(init);
      TotalConcat(ClusteredSpikes(init), last.spikes, Written);
      TotalConcat(ClusteredSpikes(init), last.spikes, Cold);
    }
  }

  // ---- What the figures mean ----

  /** A spike is a response that wrote more than 100000 tokens; it is cold when it read less than a tenth of that. */
  lemma {:induction false} OneMoreResponse(resps: seq<Resp>, r: Resp)
    ensures Spikes(resps + [r]) == if r.cc > 100_000 then Spikes(resps) + [r] else Spikes(resps)
    ensures Sums.Total(resps + [r], Written) == Sums.Total(resps, Written) + r.cc
    ensures Sums.Total(resps + [r], Cold) == Sums.Total(resps, Cold) + if 10 * r.cr < r.cc then 1 else 0
    ensures Spikes([]) == [] && Sums.Total([], Written) == 0 && Sums.Total([], Cold) == 0
  {
    assert (resps + [r])[..|resps|] == resps;
    Sums.TotalAppend(resps, r, Written);
    Sums.TotalAppend(resps, r, Cold);
  }

  /** Spikes at most ten minutes apart share a cluster, and clusters are more than that apart. */
  lemma {:induction false} TenMinuteGaps(clusters: seq<Cluster>, i: nat)
    requires MaximalChains(clusters) && i < |clusters|
    ensures forall j :: 0 < j < |clusters[i].spikes| ==>
            clusters[i].spikes[j].ts - clusters[i].spikes[j - 1].ts <= 600_000
    ensures i > 0 ==> clusters[i].fromTs - clusters[i - 1].toTs > 600_000
    ensures clusters[i].spikes != [] && clusters[i].fromTs == clusters[i].spikes[0].ts
            && clusters[i].toTs == clusters[i].spikes[|clusters[i].spikes| - 1].ts
  {
    if i < |clusters| - 1 {
      TenMinuteGaps(clusters[..|clusters| - 1], i);
    } else {
      var spikes := clusters[i].spikes;
      forall j | 0 < j < |spikes| ensures spikes[j].ts - spikes[j - 1].ts <= 600_000 {
        assert 0 <= j - 1 && j == (j - 1) + 1 && j < |spikes|;
      }
    }
  }

  /** The positions of the calls in the closed half hour that begins at `from`. */
  function InHalfHour(calls: seq<Resp>, from: int): set<nat> {
    set i: nat | i < |calls| && from <= calls[i].ts <= from + 1_800_000
  }

  lemma {:induction false} HalfHourCounts(calls: seq<Resp>, from: int)
    ensures HalfHour(calls, from) == |InHalfHour(calls, from)|
  {
    if calls == [] {
      assert InHalfHour(calls, from) == {};
    } else {
      var init, r := calls[..|calls| - 1], calls[|calls| - 1];
      HalfHourCounts(init, from);
      assert InHalfHour(calls, from)
          == InHalfHour(init, from) + if from <= r.ts <= from + 1_800_000 then {|calls| - 1} else {};
    }
  }
}
