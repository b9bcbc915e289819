/** Admission control: a bounded number of requests in flight, a bounded first-in-first-out queue with
    a timer per waiter, and load shedding. */
module Admission {
  import opened Wrappers

  datatype Limits = Limits(
    softInflight: int, maxInflight: int, maxQueue: int, maxRssMb: int, minFreeDiskMb: int, loadPerCoreMax: int)

  datatype Sample = Sample(rssMb: int, freeDiskMb: int, loadPerCore: int)

  datatype ShedReason = Rss | Disk | Inflight | QueueTimeout

  /** A queued request waits under a ticket, its arrival number. */
  datatype Outcome = Admitted | Shed(reason: ShedReason, retryAfterSec: nat) | Queued(ticket: nat)

  predicate Increasing(s: seq<nat>) {
    forall i, j :: 0 <= i < j < |s| ==> s[i] < s[j]
  }

  /** The list without the element at `k`. */
  function Without(s: seq<nat>, k: nat): seq<nat>
    requires k < |s|
  {
    s[..k] + s[k + 1..]
  }

  lemma {:induction false} WithoutOne(s: seq<nat>, k: nat)
    requires k < |s| && Increasing(s)
    ensures Increasing(Without(s, k))
    ensures forall t :: t in Without(s, k) <==> t in s && t != s[k]
  {
    var out := Without(s, k);
    assert forall i :: 0 <= i < |out| ==> out[i] == if i < k then s[i] else s[i + 1];
    forall t | t in s && t != s[k] ensures t in out {
      var i :| 0 <= i < |s| && s[i] == t;
      assert t == if i < k then out[i] else out[i - 1];
    }
  }

  /** Tickets are served in order of arrival, the waiters come after all served ones, exactly they have
      a timer armed, and a timed-out ticket is neither served nor waiting. */
  ghost predicate QueueInv(served: seq<nat>, waiters: seq<nat>, timers: set<nat>, timedOut: set<nat>, calls: nat) {
    && Increasing(served + waiters) && (forall t :: t in served + waiters ==> t < calls)
    && (forall t :: t in timers <==> t in waiters)
    && (forall t :: t in timedOut ==> t !in served + waiters && t < calls)
  }

  lemma {:induction false} QueueJoin(served: seq<nat>, waiters: seq<nat>, timers: set<nat>, timedOut: set<nat>,
                                     calls: nat)
    requires QueueInv(served, waiters, timers, timedOut, calls)
    ensures QueueInv(served, waiters, timers, timedOut, calls + 1)
    ensures QueueInv(served, waiters + [calls], timers + {calls}, timedOut, calls + 1)
  {
    var line := served + waiters;
    assert served + (waiters + [calls]) == line + [calls];
    forall i | 0 <= i < |line| ensures line[i] < calls {
      assert line[i] in line;
    }
  }

  lemma {:induction false} QueueServe(served: seq<nat>, waiters: seq<nat>, timers: set<nat>, timedOut: set<nat>,
                                      calls: nat)
    requires QueueInv(served, waiters, timers, timedOut, calls) && waiters != []
    ensures QueueInv(served + [waiters[0]], waiters[1..], timers - {waiters[0]}, timedOut, calls)
    ensures forall t :: t in waiters[1..] ==> waiters[0] < t
  {
    assert served + waiters == (served + [waiters[0]]) + waiters[1..];
    forall t | t in waiters[1..] ensures waiters[0] < t {
      var i :| 0 <= i < |waiters[1..]| && waiters[1..][i] == t;
      assert (served + waiters)[|served|] < (served + waiters)[|served| + 1 + i];
    }
  }

  lemma {:induction false} QueueDrop(served: seq<nat>, waiters: seq<nat>, timers: set<nat>, timedOut: set<nat>,
                                     calls: nat, i: nat)
    requires QueueInv(served, waiters, timers, timedOut, calls) && i < |waiters|
    ensures QueueInv(served, Without(waiters, i), timers - {waiters[i]}, timedOut + {waiters[i]}, calls)
  {
    var line, k := served + waiters, |served| + i;
    assert line[k] == waiters[i] && line[k] in line;
    WithoutOne(line, k);
    forall a, b | 0 <= a < b < |waiters| ensures waiters[a] < waiters[b] {
      assert line[|served| + a] < line[|served| + b];
    }
    WithoutOne(waiters, i);
    assert Without(line, k) == served + Without(waiters, i);
  }

  class AdmissionController {
    const limits: Limits
    var inflight: int
    var waiters: seq<nat>
    var timers: set<nat>
    var shedTotal: nat
    var admittedTotal: nat
    /** Calls of Enter so far; the number of a call identifies its waiter. */
    var calls: nat

    /** Slots given back, tickets served in the order they were, and tickets whose timer fired. */
    ghost var released: nat
    ghost var served: seq<nat>
    ghost var timedOut: set<nat>

    function WakeLevel(): int {
      if limits.softInflight < limits.maxInflight then limits.softInflight else limits.maxInflight
    }

    ghost predicate Valid()
      reads this
    {
      // bounds
      && limits.softInflight >= 1 && limits.maxInflight >= 1
      && 0 <= inflight <= limits.maxInflight
      && (waiters == [] || |waiters| <= limits.maxQueue)
      // conservation
      && calls == admittedTotal + shedTotal + |waiters|
      && inflight == admittedTotal - released
      // order of service and fate of every ticket
      && QueueInv(served, waiters, timers, timedOut, calls)
      // nobody waits without a running request whose end will wake it
      && (waiters != [] ==> inflight >= WakeLevel())
    }

    constructor (limits: Limits)
      requires limits.softInflight >= 1 && limits.maxInflight >= 1
      ensures Valid() && this.limits == limits && inflight == 0 && waiters == [] && calls == 0
    {
      this.limits := limits;
      inflight, waiters, timers, shedTotal, admittedTotal := 0, [], {}, 0, 0;
      calls, released, served, timedOut := 0, 0, [], {};
    }

    /** Hard walls shed at once; otherwise admit below the soft mark, or below the ceiling under healthy
        load; otherwise queue, or shed when the queue is full. */
    method Enter(s: Sample) returns (r: Outcome)
      requires Valid()
      modifies this
      ensures Valid() && calls == old(calls) + 1
      ensures served == old(served) && timedOut == old(timedOut) && released == old(released)
      ensures r.Admitted? <==>
        && s.rssMb <= limits.maxRssMb && s.freeDiskMb >= limits.minFreeDiskMb && old(inflight) < limits.maxInflight
        && (old(inflight) < limits.softInflight || s.loadPerCore <= limits.loadPerCoreMax)
      ensures r.Admitted? ==> inflight == old(inflight) + 1 && waiters == old(waiters) && shedTotal == old(shedTotal)
      ensures r.Shed? ==> inflight == old(inflight) && waiters == old(waiters) && shedTotal == old(shedTotal) + 1
      ensures r.Queued? ==> inflight == old(inflight) && waiters == old(waiters) + [r.ticket] && r.ticket == old(calls)
                            && |old(waiters)| < limits.maxQueue && shedTotal == old(shedTotal)
      ensures s.rssMb > limits.maxRssMb ==> r == Shed(Rss, 2)
      ensures s.rssMb <= limits.maxRssMb && s.freeDiskMb < limits.minFreeDiskMb ==> r == Shed(Disk, 5)
      ensures r.Shed? && s.rssMb <= limits.maxRssMb && s.freeDiskMb >= limits.minFreeDiskMb
              ==> r == Shed(Inflight, 1) && |old(waiters)| >= limits.maxQueue
    {
      QueueJoin(served, waiters, timers, timedOut, calls);
      calls := calls + 1;
      if s.rssMb > limits.maxRssMb {
        shedTotal := shedTotal + 1;
        return Shed(Rss, 2);
      }
      if s.freeDiskMb < limits.minFreeDiskMb {
        shedTotal := shedTotal + 1;
        return Shed(Disk, 5);
      }
      var admittable := inflight < limits.maxInflight
                        && (inflight < limits.softInflight || s.loadPerCore <= limits.loadPerCoreMax);
      if admittable {
        inflight := inflight + 1;
        admittedTotal := admittedTotal + 1;
        return Admitted;
      }
      if |waiters| >= limits.maxQueue {
        shedTotal := shedTotal + 1;
        return Shed(Inflight, 1);
      }
      r := Queued(calls - 1);
      timers := timers + {calls - 1};
      waiters := waiters + [calls - 1];
    }

    /** Gives a slot back and hands it to the oldest waiter, if any. */
    method Leave() returns (woken: Option<nat>)
      requires Valid()
      modifies this
      ensures Valid() && calls == old(calls) && shedTotal == old(shedTotal) && timedOut == old(timedOut)
      ensures old(waiters) == [] ==> woken.None? && waiters == [] && served == old(served)
                                     && inflight == if old(inflight) > 0 then old(inflight) - 1 else 0
      ensures old(waiters) != [] ==>
        && woken == Some(old(waiters)[0]) && waiters == old(waiters)[1..] && inflight == old(inflight)
        && served == old(served) + [old(waiters)[0]]
        && forall t :: t in waiters ==> woken.value < t
    {
      if inflight > 0 {
        inflight := inflight - 1;
        released := released + 1;
      }
      woken := None;
      if |waiters| > 0 && inflight < limits.maxInflight {
        var w := waiters[0];
        QueueServe(served, waiters, timers, timedOut, calls);
        served := served + [w];
        waiters := waiters[1..];
        timers := timers - {w};
        inflight := inflight + 1;
        admittedTotal := admittedTotal + 1;
        woken := Some(w);
      }
    }

    /** A waiter's timer fires; timers of promoted waiters were cleared and cannot. */
    method FireTimer(ticket: nat)
      requires Valid() && ticket in timers
      modifies this
      ensures Valid() && calls == old(calls) && inflight == old(inflight) && served == old(served)
      ensures shedTotal == old(shedTotal) + 1 && timedOut == old(timedOut) + {ticket}
      ensures exists i :: 0 <= i < |old(waiters)| && old(waiters)[i] == ticket && waiters == Without(old(waiters), i)
    {
      var i := 0;
      while waiters[i] != ticket
        invariant 0 <= i < |waiters| && ticket in waiters[i..]
        decreases |waiters| - i
      {
        i := i + 1;
      }
      QueueDrop(served, waiters, timers, timedOut, calls, i);
      waiters := waiters[..i] + waiters[i + 1..];
      timers := timers - {ticket};
      shedTotal := shedTotal + 1;
      timedOut := timedOut + {ticket};
    }
  }
}
