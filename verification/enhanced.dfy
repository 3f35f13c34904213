/**
  Enhanced Round Robin (`runEnhancedRoundRobin`). After the first cycle
  (module FirstCycle), the processes with burst left are ordered by remaining
  burst, shortest first, and each in turn runs to completion in back-to-back
  slices of twice the quantum; finally every process gets its turnaround and
  waiting time.
 */
module EnhancedRR {
  import opened Optional
  import opened StableSort
  import opened Processes
  import opened Metrics
  import opened Gantt
  import opened Admission
  import opened FirstCycle

  // ---------------------------------------------------------------------
  // The second-phase order

  /** The indices of `pool` whose process still has burst left, in pool order. */
  function Unfinished(procs: seq<Proc>, pool: seq<nat>): (r: seq<nat>)
    requires IndicesIn(pool, |procs|)
    ensures IndicesIn(r, |procs|)
    decreases |pool|
  {
    if |pool| == 0 then []
    else
      var rest := Unfinished(procs, pool[1..]);
      if procs[pool[0]].remaining > 0 then [pool[0]] + rest else rest
  }

  /** The sort key of the second phase: the remaining burst of process i. */
  function RemainingKey(procs: seq<Proc>): nat -> int {
    (i: nat) => if i < |procs| then procs[i].remaining else 0
  }

  /**
    The processes that still have burst left after the first cycle, in list
    order, stably sorted by remaining burst.
   */
  function Leftovers(procs: seq<Proc>): seq<nat> {
    RangeIndices(|procs|);
    SortBy(Unfinished(procs, Range(0, |procs|)), RemainingKey(procs))
  }

  lemma RangeIndices(n: nat)
    ensures IndicesIn(Range(0, n), n)
  {
  }

  /** Exactly the processes of the pool with burst left are kept. */
  lemma {:induction false} UnfinishedMembers(procs: seq<Proc>, pool: seq<nat>, x: nat)
    requires IndicesIn(pool, |procs|)
    ensures x in Unfinished(procs, pool) <==> x in pool && procs[x].remaining > 0
    decreases |pool|
  {
    if |pool| > 0 {
      UnfinishedMembers(procs, pool[1..], x);
      assert pool == [pool[0]] + pool[1..];
    }
  }

  /** Filtering an increasing sequence leaves it increasing. */
  lemma {:induction false} UnfinishedIncreasing(procs: seq<Proc>, pool: seq<nat>)
    requires IndicesIn(pool, |procs|) && Increasing(pool)
    ensures Increasing(Unfinished(procs, pool))
    decreases |pool|
  {
    if |pool| > 0 {
      var tail := pool[1..];
      assert Increasing(tail) by {
        forall a, b | 0 <= a < b < |tail| ensures tail[a] < tail[b] {
          assert tail[a] == pool[a + 1] && tail[b] == pool[b + 1];
        }
      }
      UnfinishedIncreasing(procs, tail);
      var rest := Unfinished(procs, tail);
      forall y | y in rest ensures pool[0] < y {
        UnfinishedMembers(procs, tail, y);
        var m :| 0 <= m < |tail| && tail[m] == y;
        assert tail[m] == pool[m + 1];
      }
      if procs[pool[0]].remaining > 0 {
        var r := [pool[0]] + rest;
        forall a, b | 0 <= a < b < |r| ensures r[a] < r[b] {
          if a == 0 {
            assert r[b] == rest[b - 1] && rest[b - 1] in rest;
          } else {
            assert r[a] == rest[a - 1] && r[b] == rest[b - 1];
          }
        }
      }
    }
  }

  lemma RangeIncreasing(n: nat)
    ensures Increasing(Range(0, n))
  {
  }

  /** Where an index sits in the order, sorted by remaining burst. */
  ghost predicate ByRemaining(procs: seq<Proc>, order: seq<nat>)
    requires IndicesIn(order, |procs|)
  {
    forall a, b :: 0 <= a < b < |order| ==> procs[order[a]].remaining <= procs[order[b]].remaining
  }

  /** Among processes with equal remaining burst, the one earlier in the list comes first. */
  ghost predicate TiesByIndex(procs: seq<Proc>, order: seq<nat>)
    requires IndicesIn(order, |procs|)
  {
    forall a, b :: 0 <= a < b < |order| && procs[order[a]].remaining == procs[order[b]].remaining ==>
      order[a] < order[b]
  }

  /**
    The second-phase order holds exactly the processes with burst left, each
    once, shortest remaining burst first, ties in list order.
   */
  lemma LeftoversSpec(procs: seq<Proc>)
    ensures IndicesIn(Leftovers(procs), |procs|)
    ensures forall x: nat :: x in Leftovers(procs) <==> x < |procs| && procs[x].remaining > 0
    ensures Unique(Leftovers(procs))
    ensures ByRemaining(procs, Leftovers(procs))
    ensures TiesByIndex(procs, Leftovers(procs))
  {
    LeftoversMembers(procs);
    LeftoversOrdered(procs);
  }

  /** The members of the second-phase order. */
  lemma LeftoversMembers(procs: seq<Proc>)
    ensures IndicesIn(Leftovers(procs), |procs|)
    ensures forall x: nat :: x in Leftovers(procs) <==> x < |procs| && procs[x].remaining > 0
  {
    var n := |procs|;
    RangeIndices(n);
    var pool := Unfinished(procs, Range(0, n));
    var r := Leftovers(procs);
    forall x: nat ensures x in r <==> x < n && procs[x].remaining > 0 {
      SortByMember(pool, RemainingKey(procs), x);
      UnfinishedMembers(procs, Range(0, n), x);
      RangeMember(n, x);
    }
    forall k | 0 <= k < |r| ensures r[k] < n {
      assert r[k] in r;
    }
  }

  lemma RangeMember(n: nat, x: nat)
    ensures x in Range(0, n) <==> x < n
  {
    if x < n {
      assert Range(0, n)[x] == x;
    }
  }

  /** The second-phase order is sorted by remaining burst, ties by index, so no index repeats. */
  lemma LeftoversOrdered(procs: seq<Proc>)
    requires IndicesIn(Leftovers(procs), |procs|)
    ensures Unique(Leftovers(procs))
    ensures ByRemaining(procs, Leftovers(procs))
    ensures TiesByIndex(procs, Leftovers(procs))
  {
    var n := |procs|;
    var key := RemainingKey(procs);
    RangeIndices(n);
    var pool := Unfinished(procs, Range(0, n));
    var r := Leftovers(procs);
    RangeIncreasing(n);
    UnfinishedIncreasing(procs, Range(0, n));
    SortByTiesAscending(pool, key);
    TiesAscendingUnique(r, key);
    SortBySorted(pool, key);
    forall a, b | 0 <= a < b < |r| ensures procs[r[a]].remaining <= procs[r[b]].remaining {
      assert key(r[a]) <= key(r[b]);
    }
    forall a, b | 0 <= a < b < |r| && procs[r[a]].remaining == procs[r[b]].remaining
      ensures r[a] < r[b]
    {
      assert key(r[a]) == key(r[b]);
    }
  }

  // ---------------------------------------------------------------------
  // The second phase

  /** One slice of the inner loop: process h runs `min(slice, remaining)` from time t. */
  function DrainStep(procs: seq<Proc>, h: nat, t: int, g: seq<Block>, slice: int): (r: Pass)
    requires h < |procs|
    ensures |r.procs| == |procs| && |r.gantt| == |g| + 1
  {
    var p := procs[h];
    var e := SliceLength(slice, p.remaining);
    Pass(procs[h := p.(remaining := p.remaining - e)], t + e, g + [Block(h, p.name, t, t + e)])
  }

  /** The inner loop: process h runs slice after slice, back to back, while burst remains. */
  function Drain(procs: seq<Proc>, h: nat, t: int, g: seq<Block>, slice: int): (r: Pass)
    requires h < |procs| && slice > 0
    ensures |r.procs| == |procs| && |r.gantt| >= |g|
    decreases procs[h].remaining
  {
    if procs[h].remaining <= 0 then Pass(procs, t, g)
    else
      var next := DrainStep(procs, h, t, g, slice);
      Drain(next.procs, h, next.time, next.gantt, slice)
  }

  /** Process h runs to completion and records the clock as its completion time. */
  function RunToEnd(procs: seq<Proc>, h: nat, t: int, g: seq<Block>, slice: int): (r: Pass)
    requires h < |procs| && slice > 0
    ensures |r.procs| == |procs| && |r.gantt| >= |g|
  {
    var d := Drain(procs, h, t, g, slice);
    Pass(d.procs[h := d.procs[h].(completion := d.time)], d.time, d.gantt)
  }

  /** The second phase: the processes of `order` run to completion one after another. */
  function SecondPhase(procs: seq<Proc>, order: seq<nat>, t: int, g: seq<Block>, slice: int): (r: Pass)
    requires IndicesIn(order, |procs|) && slice > 0
    ensures |r.procs| == |procs| && |r.gantt| >= |g|
    decreases |order|
  {
    if |order| == 0 then Pass(procs, t, g)
    else
      var x := RunToEnd(procs, order[0], t, g, slice);
      SecondPhase(x.procs, order[1..], x.time, x.gantt, slice)
  }

  /** The first phase of the enhanced scheduler, on the list ordered by arrival. */
  function FirstPhase(procs: seq<Proc>, quantum: int): Pass
    requires quantum > 0
  {
    Outcome(Cycle(StartCycle(procs), quantum))
  }

  /** The order of the second phase, for the input `ps`. */
  function SecondOrder(ps: seq<Proc>, quantum: int): seq<nat>
    requires quantum > 0
  {
    Leftovers(FirstPhase(Initial(ps), quantum).procs)
  }

  /** Both phases, before the metrics are recorded. */
  function BothPhases(ps: seq<Proc>, quantum: int): Pass
    requires quantum > 0
  {
    var first := FirstPhase(Initial(ps), quantum);
    LeftoversSpec(first.procs);
    SecondPhase(first.procs, Leftovers(first.procs), first.time, first.gantt, 2 * quantum)
  }

  /**
    `runEnhancedRoundRobin`: the first cycle with the quantum, the leftovers
    with twice the quantum, then the metrics and their averages.
   */
  function EnhancedRoundRobin(ps: seq<Proc>, quantum: int): SimResult
    requires quantum > 0
    requires forall i :: 0 <= i < |ps| ==> ps[i].burst >= 0
  {
    var run := BothPhases(ps, quantum);
    var procs := FinalizeAll(run.procs);
    SimResult(procs, run.gantt, Mean(Waitings(procs)), Mean(Turnarounds(procs)))
  }

  // ---------------------------------------------------------------------
  // Draining one process

  /**
    Draining keeps who the processes are, touches no other process, leaves
    nothing of h's burst and only appends to the log.
   */
  lemma {:induction false} DrainKeeps(procs: seq<Proc>, h: nat, t: int, g: seq<Block>, slice: int)
    requires h < |procs| && slice > 0
    ensures var d := Drain(procs, h, t, g, slice);
      && SameIdentities(procs, d.procs)
      && (forall i :: 0 <= i < |procs| && i != h ==> d.procs[i] == procs[i])
      && d.procs[h].remaining == (if procs[h].remaining <= 0 then procs[h].remaining else 0)
      && d.procs[h].completion == procs[h].completion
      && d.gantt[..|g|] == g
    decreases procs[h].remaining
  {
    if procs[h].remaining > 0 {
      var next := DrainStep(procs, h, t, g, slice);
      DrainKeeps(next.procs, h, next.time, next.gantt, slice);
      var d := Drain(procs, h, t, g, slice);
      assert d == Drain(next.procs, h, next.time, next.gantt, slice);
      assert d.gantt[..|g|] == d.gantt[..|g| + 1][..|g|];
    }
  }

  /**
    The blocks draining appends all belong to h, each starts where the
    previous one ended (the first at t), every one but the last is a full
    slice, and the clock ends where the last block ends; a process with burst
    left gets at least one block.
   */
  lemma {:induction false} DrainLog(procs: seq<Proc>, h: nat, t: int, g: seq<Block>, slice: int)
    requires h < |procs| && slice > 0
    ensures var d := Drain(procs, h, t, g, slice);
      && (forall j :: |g| <= j < |d.gantt| ==>
            && d.gantt[j].pid == h
            && d.gantt[j].start == PrevEnd(d.gantt, |g|, j, t)
            && (j + 1 < |d.gantt| ==> Length(d.gantt[j]) == slice))
      && d.time == PrevEnd(d.gantt, |g|, |d.gantt|, t)
      && (procs[h].remaining > 0 <==> |d.gantt| > |g|)
    decreases procs[h].remaining
  {
    if procs[h].remaining > 0 {
      var next := DrainStep(procs, h, t, g, slice);
      DrainLog(next.procs, h, next.time, next.gantt, slice);
      DrainKeeps(next.procs, h, next.time, next.gantt, slice);
      var d := Drain(procs, h, t, g, slice);
      assert d == Drain(next.procs, h, next.time, next.gantt, slice);
      assert d.gantt[..|g| + 1] == next.gantt;
      assert d.gantt[|g|] == next.gantt[|g|];
      if |d.gantt| > |g| + 1 {
        assert next.procs[h].remaining > 0;
      }
      forall j | |g| < j <= |d.gantt|
        ensures PrevEnd(d.gantt, |g|, j, t) == PrevEnd(d.gantt, |g| + 1, j, next.time)
      {
      }
    }
  }

  /** Draining keeps the phase invariant and leaves h's last block ending on the clock. */
  lemma {:induction false} DrainTimeline(procs: seq<Proc>, h: nat, t: int, g: seq<Block>, slice: int, bound: int)
    requires 0 < slice <= bound && h < |procs|
    requires PassInv(procs, g, bound, t) && procs[h].arrival <= t
    ensures var d := Drain(procs, h, t, g, slice);
      && PassInv(d.procs, d.gantt, bound, d.time)
      && (forall i: nat :: i != h ==> LastEnd(d.gantt, i) == LastEnd(g, i))
      && (procs[h].remaining > 0 ==> LastEnd(d.gantt, h) == Some(d.time))
      && t <= d.time
    decreases procs[h].remaining
  {
    if procs[h].remaining > 0 {
      var p := procs[h];
      var e := SliceLength(slice, p.remaining);
      var next := DrainStep(procs, h, t, g, slice);
      PassAppend(procs, g, bound, t, t, h, e, p.(remaining := p.remaining - e));
      assert next == Pass(procs[h := p.(remaining := p.remaining - e)], t + e, g + [Block(h, p.name, t, t + e)]);
      DrainTimeline(next.procs, h, next.time, next.gantt, slice, bound);
      assert Drain(procs, h, t, g, slice) == Drain(next.procs, h, next.time, next.gantt, slice);
    }
  }

  // ---------------------------------------------------------------------
  // The second phase keeps the timeline and finishes everyone

  /**
    The invariant of the second phase with the processes of `order` still to
    run: the phase invariant holds, every process has arrived, the processes
    in the order (each once) have burst left and all others have finished.
   */
  ghost predicate SecondInv(x: Pass, order: seq<nat>, bound: int) {
    && PassInv(x.procs, x.gantt, bound, x.time)
    && IndicesIn(order, |x.procs|) && Unique(order)
    && (forall i :: 0 <= i < |x.procs| ==> x.procs[i].arrival <= x.time)
    && (forall i :: 0 <= i < |x.procs| && i in order ==> x.procs[i].remaining > 0)
    && (forall i :: 0 <= i < |x.procs| && i !in order ==> Finished(x.procs, x.gantt, i))
  }

  lemma UniqueTail(order: seq<nat>)
    requires |order| > 0 && Unique(order)
    ensures Unique(order[1..]) && order[0] !in order[1..]
  {
    forall y | y in order[1..] ensures y != order[0] {
      var m :| 0 <= m < |order[1..]| && order[1..][m] == y;
      assert order[m + 1] == y;
    }
  }

  /** Running the head of the order to completion keeps the invariant for the rest. */
  lemma RunToEndKeepsInv(x: Pass, order: seq<nat>, slice: int, bound: int)
    requires 0 < slice <= bound && |order| > 0 && SecondInv(x, order, bound)
    ensures SecondInv(RunToEnd(x.procs, order[0], x.time, x.gantt, slice), order[1..], bound)
  {
    var r := RunToEnd(x.procs, order[0], x.time, x.gantt, slice);
    RunToEndFinishes(x.procs, order[0], x.time, x.gantt, slice, bound);
    SettleHead(x.procs, r.procs, x.gantt, r.gantt, order);
    UniqueTail(order);
  }

  /**
    A process with burst left that has arrived runs to completion: it has
    nothing left and completed at the end of its last block, and no other
    process or last block changed.
   */
  lemma RunToEndFinishes(procs: seq<Proc>, h: nat, t: int, g: seq<Block>, slice: int, bound: int)
    requires 0 < slice <= bound && h < |procs|
    requires PassInv(procs, g, bound, t) && procs[h].arrival <= t && procs[h].remaining > 0
    ensures var r := RunToEnd(procs, h, t, g, slice);
      && PassInv(r.procs, r.gantt, bound, r.time)
      && t <= r.time
      && SameIdentities(procs, r.procs)
      && (forall i :: 0 <= i < |procs| && i != h ==> r.procs[i] == procs[i])
      && r.procs[h].remaining == 0 && LastEnd(r.gantt, h) == Some(r.procs[h].completion)
      && (forall i: nat :: i != h ==> LastEnd(r.gantt, i) == LastEnd(g, i))
  {
    DrainTimeline(procs, h, t, g, slice, bound);
    DrainKeeps(procs, h, t, g, slice);
    RunToEndTimeline(Drain(procs, h, t, g, slice), h, bound);
  }

  /** Recording the clock as the completion time of a drained process keeps the phase invariant. */
  lemma RunToEndTimeline(d: Pass, h: nat, bound: int)
    requires h < |d.procs| && PassInv(d.procs, d.gantt, bound, d.time)
    ensures PassInv(d.procs[h := d.procs[h].(completion := d.time)], d.gantt, bound, d.time)
  {
    PassInvKeepsIdentity(d.procs, d.procs[h := d.procs[h].(completion := d.time)], d.gantt, bound, d.time);
  }

  /**
    Once the head of the order has nothing left and has completed at the end of
    its last block, with no other process or last block touched, the rest of the
    order still has burst left and everyone else has finished.
   */
  lemma SettleHead(procs: seq<Proc>, procs1: seq<Proc>, g: seq<Block>, g1: seq<Block>, order: seq<nat>)
    requires |order| > 0 && Unique(order) && order[0] < |procs| == |procs1|
    requires forall i :: 0 <= i < |procs| && i != order[0] ==> procs1[i] == procs[i]
    requires procs1[order[0]].remaining == 0 && LastEnd(g1, order[0]) == Some(procs1[order[0]].completion)
    requires forall i: nat :: i != order[0] ==> LastEnd(g1, i) == LastEnd(g, i)
    requires forall i :: 0 <= i < |procs| && i in order ==> procs[i].remaining > 0
    requires forall i :: 0 <= i < |procs| && i !in order ==> Finished(procs, g, i)
    ensures forall i :: 0 <= i < |procs1| && i in order[1..] ==> procs1[i].remaining > 0
    ensures forall i :: 0 <= i < |procs1| && i !in order[1..] ==> Finished(procs1, g1, i)
  {
    var h := order[0];
    UniqueTail(order);
    assert order == [h] + order[1..];
    forall i | 0 <= i < |procs1| && i in order[1..] ensures procs1[i].remaining > 0 {
      assert i in order && i != h;
    }
    forall i | 0 <= i < |procs1| && i !in order[1..] ensures Finished(procs1, g1, i) {
      if i != h {
        assert i !in order;
      }
    }
  }

  /** The second phase keeps the phase invariant and leaves every process finished. */
  lemma {:induction false} SecondPhaseSettles(x: Pass, order: seq<nat>, slice: int, bound: int)
    requires 0 < slice <= bound && SecondInv(x, order, bound)
    ensures SecondInv(SecondPhase(x.procs, order, x.time, x.gantt, slice), [], bound)
    decreases |order|
  {
    if |order| > 0 {
      RunToEndKeepsInv(x, order, slice, bound);
      var y := RunToEnd(x.procs, order[0], x.time, x.gantt, slice);
      SecondPhaseSettles(y, order[1..], slice, bound);
      assert SecondPhase(x.procs, order, x.time, x.gantt, slice)
        == SecondPhase(y.procs, order[1..], y.time, y.gantt, slice);
      assert y == Pass(y.procs, y.time, y.gantt);
    }
  }

  // ---------------------------------------------------------------------
  // The log of the second phase

  /** The second phase keeps who the processes are and only appends to the log. */
  lemma {:induction false} SecondPhaseKeeps(procs: seq<Proc>, order: seq<nat>, t: int, g: seq<Block>, slice: int)
    requires IndicesIn(order, |procs|) && slice > 0
    ensures var r := SecondPhase(procs, order, t, g, slice);
      SameIdentities(procs, r.procs) && r.gantt[..|g|] == g
    decreases |order|
  {
    if |order| > 0 {
      var h := order[0];
      DrainKeeps(procs, h, t, g, slice);
      var x := RunToEnd(procs, h, t, g, slice);
      SecondPhaseKeeps(x.procs, order[1..], x.time, x.gantt, slice);
      var r := SecondPhase(procs, order, t, g, slice);
      assert r == SecondPhase(x.procs, order[1..], x.time, x.gantt, slice);
      assert r.gantt[..|g|] == r.gantt[..|x.gantt|][..|g|];
    }
  }

  /** Every block of the second phase belongs to a process of the order. */
  lemma {:induction false} SecondPhasePids(procs: seq<Proc>, order: seq<nat>, t: int, g: seq<Block>, slice: int)
    requires IndicesIn(order, |procs|) && slice > 0
    ensures var r := SecondPhase(procs, order, t, g, slice);
      forall j :: |g| <= j < |r.gantt| ==> r.gantt[j].pid in order
    decreases |order|
  {
    if |order| > 0 {
      var h := order[0];
      DrainLog(procs, h, t, g, slice);
      var x := RunToEnd(procs, h, t, g, slice);
      SecondPhaseKeeps(x.procs, order[1..], x.time, x.gantt, slice);
      SecondPhasePids(x.procs, order[1..], x.time, x.gantt, slice);
      var r := SecondPhase(procs, order, t, g, slice);
      assert r == SecondPhase(x.procs, order[1..], x.time, x.gantt, slice);
      forall j | |g| <= j < |r.gantt| ensures r.gantt[j].pid in order {
        if j < |x.gantt| {
          assert r.gantt[j] == r.gantt[..|x.gantt|][j];
        } else {
          assert r.gantt[j].pid in order[1..];
        }
      }
    }
  }

  /** Draining appends no empty block: h runs only while burst remains. */
  lemma {:induction false} DrainNonEmpty(procs: seq<Proc>, h: nat, t: int, g: seq<Block>, slice: int)
    requires h < |procs| && slice > 0
    ensures var d := Drain(procs, h, t, g, slice);
      forall j :: |g| <= j < |d.gantt| ==> Length(d.gantt[j]) > 0
    decreases procs[h].remaining
  {
    if procs[h].remaining > 0 {
      var next := DrainStep(procs, h, t, g, slice);
      DrainNonEmpty(next.procs, h, next.time, next.gantt, slice);
      DrainKeeps(next.procs, h, next.time, next.gantt, slice);
      var d := Drain(procs, h, t, g, slice);
      assert d == Drain(next.procs, h, next.time, next.gantt, slice);
      assert d.gantt[|g|] == d.gantt[..|g| + 1][|g|] == next.gantt[|g|];
    }
  }

  /** The second phase never writes an empty block: a process runs only while burst remains. */
  lemma {:induction false} SecondPhaseNonEmpty(procs: seq<Proc>, order: seq<nat>, t: int, g: seq<Block>, slice: int)
    requires IndicesIn(order, |procs|) && slice > 0
    ensures var r := SecondPhase(procs, order, t, g, slice);
      forall j :: |g| <= j < |r.gantt| ==> Length(r.gantt[j]) > 0
    decreases |order|
  {
    if |order| > 0 {
      var h := order[0];
      DrainNonEmpty(procs, h, t, g, slice);
      var x := RunToEnd(procs, h, t, g, slice);
      SecondPhaseKeeps(x.procs, order[1..], x.time, x.gantt, slice);
      SecondPhaseNonEmpty(x.procs, order[1..], x.time, x.gantt, slice);
      var r := SecondPhase(procs, order, t, g, slice);
      assert r == SecondPhase(x.procs, order[1..], x.time, x.gantt, slice);
      assert x.gantt == Drain(procs, h, t, g, slice).gantt;
      forall j | |g| <= j < |x.gantt| ensures Length(r.gantt[j]) > 0 {
        assert r.gantt[j] == r.gantt[..|x.gantt|][j];
      }
    }
  }

  /** From index `from` on, each block starts where the previous one ended (the first at t). */
  ghost predicate NoGap(g: seq<Block>, from: nat, t: int)
    requires from <= |g|
  {
    forall j :: from <= j < |g| ==> g[j].start == PrevEnd(g, from, j, t)
  }

  /** From index `from` on, a block followed by another of the same process is a full slice. */
  ghost predicate FullSlices(g: seq<Block>, from: nat, slice: int) {
    forall j :: from <= j && j + 1 < |g| && g[j].pid == g[j + 1].pid ==> Length(g[j]) == slice
  }

  /**
    From index `from` on, the blocks of a process earlier in `order` all come
    before those of a process later in it.
   */
  ghost predicate RunsInOrder(g: seq<Block>, from: nat, order: seq<nat>) {
    forall a, b, j, k ::
      (0 <= a < b < |order| && from <= j < |g| && from <= k < |g| && g[j].pid == order[a] && g[k].pid == order[b])
      ==> j < k
  }

  /** The second phase never idles: its blocks follow one another, and the clock ends with the last. */
  lemma {:induction false} SecondPhaseClock(procs: seq<Proc>, order: seq<nat>, t: int, g: seq<Block>, slice: int)
    requires IndicesIn(order, |procs|) && slice > 0
    ensures var r := SecondPhase(procs, order, t, g, slice);
      NoGap(r.gantt, |g|, t) && r.time == PrevEnd(r.gantt, |g|, |r.gantt|, t)
    decreases |order|
  {
    if |order| > 0 {
      var h := order[0];
      DrainLog(procs, h, t, g, slice);
      var x := RunToEnd(procs, h, t, g, slice);
      SecondPhaseKeeps(x.procs, order[1..], x.time, x.gantt, slice);
      SecondPhaseClock(x.procs, order[1..], x.time, x.gantt, slice);
      var r := SecondPhase(procs, order, t, g, slice);
      assert r == SecondPhase(x.procs, order[1..], x.time, x.gantt, slice);
      forall j | |g| <= j <= |x.gantt| ensures PrevEnd(r.gantt, |g|, j, t) == PrevEnd(x.gantt, |g|, j, t) {
        if j > |g| {
          assert r.gantt[j - 1] == r.gantt[..|x.gantt|][j - 1];
        }
      }
      forall j | |g| <= j < |x.gantt| ensures r.gantt[j].start == PrevEnd(r.gantt, |g|, j, t) {
        assert r.gantt[j] == r.gantt[..|x.gantt|][j];
      }
      forall j | |x.gantt| <= j <= |r.gantt|
        ensures PrevEnd(r.gantt, |g|, j, t) == PrevEnd(r.gantt, |x.gantt|, j, x.time)
      {
      }
    }
  }

  /**
    The blocks of the second phase split where the head of the order stops:
    before that point they are exactly the head's, after it they belong to
    the rest of the order.
   */
  lemma SecondPhaseSplit(procs: seq<Proc>, order: seq<nat>, t: int, g: seq<Block>, slice: int)
    requires IndicesIn(order, |procs|) && Unique(order) && |order| > 0 && slice > 0
    ensures var x := RunToEnd(procs, order[0], t, g, slice);
      var r := SecondPhase(procs, order, t, g, slice);
      && r == SecondPhase(x.procs, order[1..], x.time, x.gantt, slice)
      && |x.gantt| <= |r.gantt|
      && (forall j :: |g| <= j < |r.gantt| ==> (r.gantt[j].pid == order[0] <==> j < |x.gantt|))
      && (forall j :: |g| <= j < |x.gantt| ==> r.gantt[j] == x.gantt[j])
  {
    var h := order[0];
    UniqueTail(order);
    DrainLog(procs, h, t, g, slice);
    var x := RunToEnd(procs, h, t, g, slice);
    SecondPhaseKeeps(x.procs, order[1..], x.time, x.gantt, slice);
    SecondPhasePids(x.procs, order[1..], x.time, x.gantt, slice);
    var r := SecondPhase(procs, order, t, g, slice);
    forall j | |g| <= j < |x.gantt| ensures r.gantt[j] == x.gantt[j] {
      assert r.gantt[j] == r.gantt[..|x.gantt|][j];
    }
  }

  /** In the second phase every slice but the last of each process is a full one. */
  lemma {:induction false} SecondPhaseSlices(procs: seq<Proc>, order: seq<nat>, t: int, g: seq<Block>, slice: int)
    requires IndicesIn(order, |procs|) && Unique(order) && slice > 0
    ensures var r := SecondPhase(procs, order, t, g, slice);
      FullSlices(r.gantt, |g|, slice)
    decreases |order|
  {
    if |order| > 0 {
      var h := order[0];
      UniqueTail(order);
      DrainLog(procs, h, t, g, slice);
      SecondPhaseSplit(procs, order, t, g, slice);
      var x := RunToEnd(procs, h, t, g, slice);
      SecondPhaseSlices(x.procs, order[1..], x.time, x.gantt, slice);
    }
  }

  /** The second phase runs the processes of the order one after another, each in one stretch. */
  lemma {:induction false} SecondPhaseOrder(procs: seq<Proc>, order: seq<nat>, t: int, g: seq<Block>, slice: int)
    requires IndicesIn(order, |procs|) && Unique(order) && slice > 0
    ensures var r := SecondPhase(procs, order, t, g, slice);
      RunsInOrder(r.gantt, |g|, order)
    decreases |order|
  {
    if |order| > 0 {
      var h := order[0];
      UniqueTail(order);
      SecondPhaseSplit(procs, order, t, g, slice);
      var x := RunToEnd(procs, h, t, g, slice);
      SecondPhaseOrder(x.procs, order[1..], x.time, x.gantt, slice);
      var r := SecondPhase(procs, order, t, g, slice);
      forall a, b, j, k | 0 <= a < b < |order| && |g| <= j < |r.gantt| && |g| <= k < |r.gantt|
        && r.gantt[j].pid == order[a] && r.gantt[k].pid == order[b]
        ensures j < k
      {
        if a > 0 {
          assert order[1..][a - 1] == order[a] && order[1..][b - 1] == order[b];
        }
      }
    }
  }

  // ---------------------------------------------------------------------
  // The whole run

  /** The first phase on the input: the reference pass over the list ordered by arrival. */
  lemma FirstPhaseIsPass(ps: seq<Proc>, quantum: int)
    requires quantum > 0
    requires forall i :: 0 <= i < |ps| ==> ps[i].burst >= 0
    ensures |Initial(ps)| == |ps|
    ensures forall i :: 0 <= i < |ps| ==> Initial(ps)[i].remaining == Initial(ps)[i].burst >= 0
    ensures FirstPhase(Initial(ps), quantum) == FirstPass(Initial(ps), 0, 0, [], quantum)
    ensures PhaseOk(FirstPhase(Initial(ps), quantum), 2 * quantum, |ps|)
  {
    InitialBurstsNonNegative(ps);
    SortBySorted(Copies(ps), Arrival);
    FirstPhaseOk(Initial(ps), quantum);
  }

  /** On a list ordered by arrival, the first phase is the reference pass and keeps the phase invariant. */
  lemma FirstPhaseOk(procs: seq<Proc>, quantum: int)
    requires quantum > 0 && SortedBy(procs, Arrival)
    requires forall i :: 0 <= i < |procs| ==> procs[i].remaining == procs[i].burst >= 0
    ensures FirstPhase(procs, quantum) == FirstPass(procs, 0, 0, [], quantum)
    ensures PhaseOk(FirstPhase(procs, quantum), 2 * quantum, |procs|)
  {
    CycleIsFirstPass(procs, quantum);
    assert PhaseOk(Pass(procs, 0, []), 2 * quantum, 0);
    FirstPassTimeline(procs, 0, 0, [], quantum, 2 * quantum);
  }

  /**
    The first phase on the input: process i (in arrival order) has the i-th
    block, of length `min(quantum, burst)`, starting once the processor is free
    and the process has arrived; what it has left is its burst less that slice.
   */
  lemma FirstPhaseLog(ps: seq<Proc>, quantum: int)
    requires quantum > 0
    requires forall i :: 0 <= i < |ps| ==> ps[i].burst >= 0
    ensures var procs, first := Initial(ps), FirstPhase(Initial(ps), quantum);
      && |procs| == |first.procs| == |ps| == |first.gantt|
      && SameIdentities(procs, first.procs)
      && forall i :: 0 <= i < |ps| ==>
           && first.gantt[i].pid == i
           && first.gantt[i].start == StartAt(EndOf(first.gantt[..i], 0), procs[i].arrival)
           && Length(first.gantt[i]) == SliceLength(quantum, procs[i].burst)
           && first.procs[i].remaining == procs[i].burst - SliceLength(quantum, procs[i].burst)
  {
    FirstPhaseIsPass(ps, quantum);
    PassLog(Initial(ps), quantum);
  }

  /** The reference pass from the start, on fresh processes. */
  lemma PassLog(procs: seq<Proc>, quantum: int)
    requires quantum > 0
    requires forall i :: 0 <= i < |procs| ==> procs[i].remaining == procs[i].burst >= 0
    ensures var first := FirstPass(procs, 0, 0, [], quantum);
      && |first.procs| == |procs| == |first.gantt|
      && SameIdentities(procs, first.procs)
      && forall i :: 0 <= i < |procs| ==>
           && first.gantt[i].pid == i
           && first.gantt[i].start == StartAt(EndOf(first.gantt[..i], 0), procs[i].arrival)
           && Length(first.gantt[i]) == SliceLength(quantum, procs[i].burst)
           && first.procs[i].remaining == procs[i].burst - SliceLength(quantum, procs[i].burst)
  {
    FirstPassLog(procs, 0, 0, [], quantum);
    FirstPassProcs(procs, 0, 0, [], quantum);
    FirstPassKeeps(procs, 0, 0, [], quantum);
    var first := FirstPass(procs, 0, 0, [], quantum);
    forall i | 0 <= i < |procs|
      ensures first.gantt[i].start == StartAt(EndOf(first.gantt[..i], 0), procs[i].arrival)
      ensures Length(first.gantt[i]) == SliceLength(quantum, procs[i].burst)
      ensures first.procs[i].remaining == procs[i].burst - SliceLength(quantum, procs[i].burst)
    {
      assert PrevEnd(first.gantt, 0, i, 0) == EndOf(first.gantt[..i], 0);
      var b := first.gantt[i];
      assert first.procs[i] == FirstSlice(procs[i], Length(b), b.end);
    }
  }

  /** Every process has arrived by the end of the first phase: each has had a block by then. */
  lemma FirstPhaseAllArrived(ps: seq<Proc>, quantum: int)
    requires quantum > 0
    requires forall i :: 0 <= i < |ps| ==> ps[i].burst >= 0
    ensures var first := FirstPhase(Initial(ps), quantum);
      forall i :: 0 <= i < |first.procs| ==> first.procs[i].arrival <= first.time
  {
    FirstPhaseIsPass(ps, quantum);
    FirstPhaseLog(ps, quantum);
    var first := FirstPhase(Initial(ps), quantum);
    forall i | 0 <= i < |first.procs| ensures first.procs[i].arrival <= first.time {
      assert first.gantt[i].pid == i;
    }
  }

  /**
    The second phase runs exactly the processes whose burst exceeds the
    quantum, each once, shortest burst first and equal bursts in arrival
    order (their remaining burst is the burst less one quantum).
   */
  lemma SecondOrderSpec(ps: seq<Proc>, quantum: int)
    requires quantum > 0
    requires forall i :: 0 <= i < |ps| ==> ps[i].burst >= 0
    ensures var procs, order := Initial(ps), SecondOrder(ps, quantum);
      && |procs| == |ps|
      && IndicesIn(order, |ps|) && Unique(order)
      && (forall x: nat :: x in order <==> x < |ps| && procs[x].burst > quantum)
      && (forall a, b :: 0 <= a < b < |order| ==> procs[order[a]].burst <= procs[order[b]].burst)
      && (forall a, b :: 0 <= a < b < |order| && procs[order[a]].burst == procs[order[b]].burst ==>
            order[a] < order[b])
  {
    FirstPhaseLog(ps, quantum);
    LeftoversByBurst(Initial(ps), FirstPhase(Initial(ps), quantum).procs, quantum);
  }

  /**
    When each process has had one slice of `min(quantum, burst)`, the leftovers
    are the processes whose burst exceeds the quantum, ordered by burst with
    ties in list order.
   */
  lemma LeftoversByBurst(procs: seq<Proc>, after: seq<Proc>, quantum: int)
    requires |after| == |procs|
    requires forall i :: 0 <= i < |procs| ==> after[i].remaining == procs[i].burst - SliceLength(quantum, procs[i].burst)
    ensures var order := Leftovers(after);
      && IndicesIn(order, |procs|) && Unique(order)
      && (forall x: nat :: x in order <==> x < |procs| && procs[x].burst > quantum)
      && (forall a, b :: 0 <= a < b < |order| ==> procs[order[a]].burst <= procs[order[b]].burst)
      && (forall a, b :: 0 <= a < b < |order| && procs[order[a]].burst == procs[order[b]].burst ==>
            order[a] < order[b])
  {
    LeftoversSpec(after);
    var order := Leftovers(after);
    forall a, b | 0 <= a < b < |order| ensures procs[order[a]].burst <= procs[order[b]].burst {
      assert after[order[a]].remaining <= after[order[b]].remaining;
    }
    forall a, b | 0 <= a < b < |order| && procs[order[a]].burst == procs[order[b]].burst
      ensures order[a] < order[b]
    {
      assert after[order[a]].remaining == after[order[b]].remaining;
    }
  }

  /** After both phases every process has finished, and the phase invariant holds with twice the quantum. */
  lemma BothPhasesFinish(ps: seq<Proc>, quantum: int)
    requires quantum > 0
    requires forall i :: 0 <= i < |ps| ==> ps[i].burst >= 0
    ensures var run := BothPhases(ps, quantum);
      && PassInv(run.procs, run.gantt, 2 * quantum, run.time)
      && SameIdentities(Initial(ps), run.procs)
      && forall i :: 0 <= i < |run.procs| ==> Finished(run.procs, run.gantt, i)
  {
    FirstPhaseIsPass(ps, quantum);
    FirstPhaseAllArrived(ps, quantum);
    FirstPassKeeps(Initial(ps), 0, 0, [], quantum);
    var first := FirstPhase(Initial(ps), quantum);
    LeftoversSpec(first.procs);
    var order := Leftovers(first.procs);
    SecondPhaseSettles(first, order, 2 * quantum, 2 * quantum);
    SecondPhaseKeeps(first.procs, order, first.time, first.gantt, 2 * quantum);
  }

  /** Recording the metrics of a finished schedule makes it complete. */
  lemma FinalizedIsComplete(procs: seq<Proc>, g: seq<Block>, bound: int, t: int)
    requires PassInv(procs, g, bound, t)
    requires forall i :: 0 <= i < |procs| ==> Finished(procs, g, i)
    ensures Complete(FinalizeAll(procs), g, bound)
  {
    var fin := FinalizeAll(procs);
    PassInvKeepsIdentity(procs, fin, g, bound, t);
    forall i | 0 <= i < |fin|
      ensures fin[i].remaining == 0 && SliceTotal(g, i) == fin[i].burst
      ensures LastEnd(g, i) == Some(fin[i].completion)
      ensures MetricsConsistent(fin[i]) && fin[i].waiting >= 0
    {
      assert Finished(procs, g, i);
      WaitingNonNegative(procs, g, bound, t, i);
    }
  }

  /**
    What an enhanced run promises: the result lists the working copies; every
    process has run exactly its burst, in blocks that never overlap, start no
    earlier than its arrival and are at most twice the quantum long; it
    completes at the end of its last block, with turnaround and waiting time
    from that; the processor idles only until the next arrival. The averages
    are the means of the metrics, and an empty input gives an empty result.
   */
  lemma EnhancedRoundRobinCorrect(ps: seq<Proc>, quantum: int)
    requires quantum > 0
    requires forall i :: 0 <= i < |ps| ==> ps[i].burst >= 0
    ensures var r := EnhancedRoundRobin(ps, quantum);
      && SameIdentities(Initial(ps), r.procs)
      && Complete(r.procs, r.gantt, 2 * quantum)
      && 0.0 <= r.awt && 0.0 <= r.atat
      && |r.procs| == |ps|
      && IsMean(r.awt, Waitings(r.procs)) && IsMean(r.atat, Turnarounds(r.procs))
      && (|ps| == 0 ==> r == SimResult([], [], 0.0, 0.0))
  {
    InitialBurstsNonNegative(ps);
    BothPhasesFinish(ps, quantum);
    var run := BothPhases(ps, quantum);
    FinalizedIsComplete(run.procs, run.gantt, 2 * quantum, run.time);
    var fin := FinalizeAll(run.procs);
    AveragesOfComplete(fin, run.gantt, 2 * quantum);
    AveragesAreMeans(fin);
  }

  /** The log of a run is the first phase's log extended by the second phase. */
  lemma RunExtendsFirstPhase(ps: seq<Proc>, quantum: int)
    requires quantum > 0
    requires forall i :: 0 <= i < |ps| ==> ps[i].burst >= 0
    ensures var first, order := FirstPhase(Initial(ps), quantum), SecondOrder(ps, quantum);
      && |first.gantt| == |ps| == |first.procs|
      && first.time == EndOf(first.gantt, 0)
      && IndicesIn(order, |first.procs|) && Unique(order)
      && EnhancedRoundRobin(ps, quantum).gantt == SecondPhase(first.procs, order, first.time, first.gantt, 2 * quantum).gantt
      && EnhancedRoundRobin(ps, quantum).gantt[..|ps|] == first.gantt
  {
    FirstPhaseIsPass(ps, quantum);
    var first := FirstPhase(Initial(ps), quantum);
    LeftoversSpec(first.procs);
    SecondPhaseKeeps(first.procs, Leftovers(first.procs), first.time, first.gantt, 2 * quantum);
  }

  /**
    The log of an enhanced run starts with the first cycle: block i belongs to
    process i in arrival order, starts once the processor is free and the
    process has arrived, and lasts `min(quantum, burst)`.
   */
  lemma EnhancedFirstCycleLog(ps: seq<Proc>, quantum: int)
    requires quantum > 0
    requires forall i :: 0 <= i < |ps| ==> ps[i].burst >= 0
    ensures var r, procs := EnhancedRoundRobin(ps, quantum), Initial(ps);
      && |procs| == |ps| <= |r.gantt|
      && forall i :: 0 <= i < |ps| ==>
           && r.gantt[i].pid == i
           && r.gantt[i].start == StartAt(EndOf(r.gantt[..i], 0), procs[i].arrival)
           && Length(r.gantt[i]) == SliceLength(quantum, procs[i].burst)
  {
    FirstPhaseLog(ps, quantum);
    RunExtendsFirstPhase(ps, quantum);
    var r := EnhancedRoundRobin(ps, quantum);
    var first := FirstPhase(Initial(ps), quantum);
    forall i | 0 <= i < |ps| ensures r.gantt[i] == first.gantt[i] && r.gantt[..i] == first.gantt[..i] {
      assert r.gantt[i] == r.gantt[..|ps|][i];
      assert r.gantt[..i] == r.gantt[..|ps|][..i];
    }
  }

  /**
    After the first cycle the log holds only processes of the second order,
    never idles, runs each of them in one stretch in that order, and cuts a
    stretch into full slices of twice the quantum except its last, none of
    them empty.
   */
  lemma EnhancedSecondPhaseLog(ps: seq<Proc>, quantum: int)
    requires quantum > 0
    requires forall i :: 0 <= i < |ps| ==> ps[i].burst >= 0
    ensures var r, order := EnhancedRoundRobin(ps, quantum), SecondOrder(ps, quantum);
      && |ps| <= |r.gantt|
      && (forall j :: |ps| <= j < |r.gantt| ==> r.gantt[j].pid in order && r.gantt[j].start == EndOf(r.gantt[..j], 0))
      && RunsInOrder(r.gantt, |ps|, order)
      && FullSlices(r.gantt, |ps|, 2 * quantum)
      && (forall j :: |ps| <= j < |r.gantt| ==> Length(r.gantt[j]) > 0)
  {
    RunExtendsFirstPhase(ps, quantum);
    var first := FirstPhase(Initial(ps), quantum);
    var order := SecondOrder(ps, quantum);
    SecondPhaseShape(first.procs, order, first.time, first.gantt, 2 * quantum);
    SecondPhaseOrder(first.procs, order, first.time, first.gantt, 2 * quantum);
    SecondPhaseSlices(first.procs, order, first.time, first.gantt, 2 * quantum);
    SecondPhaseNonEmpty(first.procs, order, first.time, first.gantt, 2 * quantum);
  }

  /**
    Started with the clock at the end of the log, the second phase adds only
    blocks of processes in the order, each starting where the log before it ends.
   */
  lemma SecondPhaseShape(procs: seq<Proc>, order: seq<nat>, t: int, g: seq<Block>, slice: int)
    requires IndicesIn(order, |procs|) && slice > 0 && t == EndOf(g, 0)
    ensures var r := SecondPhase(procs, order, t, g, slice).gantt;
      && |g| <= |r|
      && (forall j :: |g| <= j < |r| ==> r[j].pid in order && r[j].start == EndOf(r[..j], 0))
  {
    SecondPhaseKeeps(procs, order, t, g, slice);
    SecondPhasePids(procs, order, t, g, slice);
    SecondPhaseClock(procs, order, t, g, slice);
    var r := SecondPhase(procs, order, t, g, slice).gantt;
    forall j | |g| <= j < |r| ensures PrevEnd(r, |g|, j, t) == EndOf(r[..j], 0) {
      if j == |g| {
        assert r[..j] == g;
      }
    }
  }
}
