/**
  The Gantt log (`App.GanttBlock`): one block per execution slice, appended in
  execution order. A block names its process by index (`pid`) as well as by
  name, because process names need not be unique.
 */
module Gantt {
  import opened Optional
  import opened Processes
  import opened Metrics

  datatype Block = Block(pid: nat, name: string, start: int, end: int)

  function Length(b: Block): int {
    b.end - b.start
  }

  /** `Math.min(quantum, remaining)`: the length of the next slice. */
  function SliceLength(quantum: int, remaining: int): (e: int)
    ensures e <= quantum && e <= remaining
    ensures e == quantum || e == remaining
  {
    if quantum <= remaining then quantum else remaining
  }

  /** What a run returns: the processes, the Gantt log and the two averages. */
  datatype SimResult = SimResult(procs: seq<Proc>, gantt: seq<Block>, awt: real, atat: real)

  /** Where the log ends: the end of its last block, or `t0` when it is empty. */
  function EndOf(g: seq<Block>, t0: int): int {
    if |g| == 0 then t0 else g[|g| - 1].end
  }

  /**
    The processor idles only until the next process arrives: a block starts
    where the previous one ended (at `t0` for the first), or else exactly at
    the arrival time of its own process.
   */
  ghost predicate IdleOnlyUntilArrival(g: seq<Block>, procs: seq<Proc>, t0: int) {
    forall k :: 0 <= k < |g| ==>
      g[k].start == EndOf(g[..k], t0) || (g[k].pid < |procs| && g[k].start == procs[g[k].pid].arrival)
  }

  /** Total execution time the log gives process `i`. */
  function SliceTotal(g: seq<Block>, i: nat): int
    decreases |g|
  {
    if |g| == 0 then 0
    else SliceTotal(g[..|g| - 1], i) + (if g[|g| - 1].pid == i then Length(g[|g| - 1]) else 0)
  }

  /** End of the last block of process `i`, if it has one. */
  function LastEnd(g: seq<Block>, i: nat): Option<int>
    decreases |g|
  {
    if |g| == 0 then None
    else if g[|g| - 1].pid == i then Some(g[|g| - 1].end)
    else LastEnd(g[..|g| - 1], i)
  }

  /** Blocks have non-negative length and never overlap: each starts at or after every earlier end. */
  ghost predicate Chronological(g: seq<Block>) {
    && (forall k :: 0 <= k < |g| ==> g[k].start <= g[k].end)
    && (forall j, k :: 0 <= j < k < |g| ==> g[j].end <= g[k].start)
  }

  /** No block ends after time `t`. */
  ghost predicate EndsBy(g: seq<Block>, t: int) {
    forall k :: 0 <= k < |g| ==> g[k].end <= t
  }

  /**
    Every block belongs to a process of `procs`, carries its name, starts no
    earlier than its arrival and is at most `quantum` long.
   */
  ghost predicate BlocksValid(g: seq<Block>, procs: seq<Proc>, quantum: int) {
    forall k :: 0 <= k < |g| ==>
      && g[k].pid < |procs|
      && g[k].name == procs[g[k].pid].name
      && procs[g[k].pid].arrival <= g[k].start
      && Length(g[k]) <= quantum
  }

  /** An empty process list admits no block. */
  lemma NoProcessesNoBlocks(g: seq<Block>, procs: seq<Proc>, quantum: int)
    requires BlocksValid(g, procs, quantum) && |procs| == 0
    ensures g == []
  {
    if |g| > 0 {
      FirstBlockValid(g, procs, quantum);
      assert false;
    }
  }

  /** In a complete schedule both averages are non-negative means of the metrics. */
  lemma AveragesOfComplete(procs: seq<Proc>, g: seq<Block>, quantum: int)
    requires Complete(procs, g, quantum)
    requires forall i :: 0 <= i < |procs| ==> procs[i].burst >= 0
    ensures 0.0 <= Mean(Waitings(procs)) && 0.0 <= Mean(Turnarounds(procs))
    ensures |procs| == 0 ==> g == []
  {
    MeanAtLeast(Waitings(procs), 0);
    MeanAtLeast(Turnarounds(procs), 0);
    if |procs| == 0 {
      NoProcessesNoBlocks(g, procs, quantum);
    }
  }

  lemma FirstBlockValid(g: seq<Block>, procs: seq<Proc>, quantum: int)
    requires BlocksValid(g, procs, quantum) && |g| > 0
    ensures g[0].pid < |procs|
  {
  }

  /** The log accounts for every burst: executed time plus remaining time is the burst. */
  ghost predicate Accounted(g: seq<Block>, procs: seq<Proc>) {
    forall i :: 0 <= i < |procs| ==>
      0 <= procs[i].remaining && SliceTotal(g, i) + procs[i].remaining == procs[i].burst
  }

  /** The invariant every scheduler keeps between slices, at current time `t`. */
  ghost predicate Timeline(procs: seq<Proc>, g: seq<Block>, quantum: int, t: int) {
    Chronological(g) && EndsBy(g, t) && BlocksValid(g, procs, quantum) && Accounted(g, procs)
  }

  /** A process is finished when nothing remains and its completion is the end of its last block. */
  ghost predicate Finished(procs: seq<Proc>, g: seq<Block>, i: nat)
    requires i < |procs|
  {
    procs[i].remaining == 0 && LastEnd(g, i) == Some(procs[i].completion)
  }

  /** Everything a finished schedule guarantees about processes `procs` and log `g`. */
  ghost predicate Complete(procs: seq<Proc>, g: seq<Block>, quantum: int) {
    && Chronological(g)
    && BlocksValid(g, procs, quantum)
    && IdleOnlyUntilArrival(g, procs, 0)
    && forall i :: 0 <= i < |procs| ==>
         && procs[i].remaining == 0
         && SliceTotal(g, i) == procs[i].burst
         && LastEnd(g, i) == Some(procs[i].completion)
         && MetricsConsistent(procs[i])
         && procs[i].waiting >= 0
  }

  /** The idle rule depends only on arrival times, which a run never changes. */
  lemma IdleRuleKeepsIdentity(g: seq<Block>, procs: seq<Proc>, procs': seq<Proc>, t0: int)
    requires IdleOnlyUntilArrival(g, procs, t0) && SameIdentities(procs, procs')
    ensures IdleOnlyUntilArrival(g, procs', t0)
  {
  }

  /**
    Appending a block that starts at the end of the log, or at its own
    process's arrival, keeps the idle rule; updating processes without
    changing who they are keeps it too.
   */
  lemma AppendKeepsIdleRule(g: seq<Block>, procs: seq<Proc>, procs': seq<Proc>, t0: int, b: Block)
    requires IdleOnlyUntilArrival(g, procs, t0) && SameIdentities(procs, procs')
    requires b.start == EndOf(g, t0) || (b.pid < |procs| && b.start == procs[b.pid].arrival)
    ensures IdleOnlyUntilArrival(g + [b], procs', t0)
  {
    var g' := g + [b];
    forall k | 0 <= k < |g'|
      ensures g'[k].start == EndOf(g'[..k], t0)
           || (g'[k].pid < |procs'| && g'[k].start == procs'[g'[k].pid].arrival)
    {
      if k < |g| {
        assert g'[..k] == g[..k] && g'[k] == g[k];
      } else {
        assert g'[..k] == g;
      }
    }
  }

  /** Appending a block changes the totals and last ends of its own process only. */
  lemma AppendBlock(g: seq<Block>, b: Block)
    ensures forall i: nat :: SliceTotal(g + [b], i) == SliceTotal(g, i) + (if b.pid == i then Length(b) else 0)
    ensures LastEnd(g + [b], b.pid) == Some(b.end)
    ensures forall i: nat :: i != b.pid ==> LastEnd(g + [b], i) == LastEnd(g, i)
  {
    assert (g + [b])[..|g|] == g;
  }

  /**
    Running process `h` for `e` time units from time `t` — its arrival already
    passed, `e` within the quantum and its remaining burst — keeps the timeline
    invariant, now at time `t + e`.
   */
  lemma AppendSlice(procs: seq<Proc>, g: seq<Block>, quantum: int, t: int, h: nat, e: int, p: Proc)
    requires Timeline(procs, g, quantum, t)
    requires h < |procs| && procs[h].arrival <= t
    requires 0 <= e <= quantum && e <= procs[h].remaining
    requires SameIdentity(procs[h], p) && p.remaining == procs[h].remaining - e
    ensures Timeline(procs[h := p], g + [Block(h, procs[h].name, t, t + e)], quantum, t + e)
    ensures forall i: nat :: i != h ==> LastEnd(g + [Block(h, procs[h].name, t, t + e)], i) == LastEnd(g, i)
    ensures LastEnd(g + [Block(h, procs[h].name, t, t + e)], h) == Some(t + e)
  {
    var b := Block(h, procs[h].name, t, t + e);
    AppendBlock(g, b);
    var procs', g' := procs[h := p], g + [b];
    assert Accounted(g', procs') by {
      forall i | 0 <= i < |procs'|
        ensures 0 <= procs'[i].remaining && SliceTotal(g', i) + procs'[i].remaining == procs'[i].burst
      {
        assert SliceTotal(g', i) == SliceTotal(g, i) + (if h == i then e else 0);
      }
    }
  }

  /** Time may pass without any block. */
  lemma EndsByLater(g: seq<Block>, t: int, t': int)
    requires EndsBy(g, t) && t <= t'
    ensures EndsBy(g, t')
  {
  }

  /** Updating a process without changing its identity or remaining burst keeps the timeline. */
  lemma TimelineKeepsIdentity(procs: seq<Proc>, procs': seq<Proc>, g: seq<Block>, quantum: int, t: int)
    requires Timeline(procs, g, quantum, t)
    requires SameIdentities(procs, procs')
    requires forall i :: 0 <= i < |procs| ==> procs'[i].remaining == procs[i].remaining
    ensures Timeline(procs', g, quantum, t)
  {
  }

  /** A last end lies within any bound on all ends. */
  lemma {:induction false} LastEndBounded(g: seq<Block>, i: nat, t: int)
    requires EndsBy(g, t)
    ensures LastEnd(g, i).Some? ==> LastEnd(g, i).value <= t
    decreases |g|
  {
    if |g| > 0 && g[|g| - 1].pid != i {
      LastEndBounded(g[..|g| - 1], i, t);
    }
  }

  /**
    The blocks of a process that all start at or after `a` fit between `a` and
    its last end, because blocks never overlap; with no block the total is 0.
   */
  lemma {:induction false} SliceTotalWithin(g: seq<Block>, i: nat, a: int)
    requires Chronological(g)
    requires forall k :: 0 <= k < |g| && g[k].pid == i ==> a <= g[k].start
    ensures LastEnd(g, i).None? ==> SliceTotal(g, i) == 0
    ensures LastEnd(g, i).Some? ==> SliceTotal(g, i) <= LastEnd(g, i).value - a
    decreases |g|
  {
    if |g| > 0 {
      var front, last := g[..|g| - 1], g[|g| - 1];
      SliceTotalWithin(front, i, a);
      if last.pid == i {
        assert EndsBy(front, last.start);
        LastEndBounded(front, i, last.start);
      }
    }
  }

  /** With no block of negative length, a process's total covers each of its blocks. */
  lemma {:induction false} SliceTotalCovers(g: seq<Block>, i: nat, j: nat)
    requires forall k :: 0 <= k < |g| ==> g[k].start <= g[k].end
    requires j < |g| && g[j].pid == i
    ensures SliceTotal(g, i) >= Length(g[j])
    decreases |g|
  {
    var front := g[..|g| - 1];
    SliceTotalNonNegative(front, i);
    if j < |g| - 1 {
      assert front[j] == g[j];
      SliceTotalCovers(front, i, j);
    }
  }

  /** With no block of negative length, no total is negative. */
  lemma {:induction false} SliceTotalNonNegative(g: seq<Block>, i: nat)
    requires forall k :: 0 <= k < |g| ==> g[k].start <= g[k].end
    ensures SliceTotal(g, i) >= 0
    decreases |g|
  {
    if |g| > 0 {
      SliceTotalNonNegative(g[..|g| - 1], i);
    }
  }

  /**
    Waiting time is never negative: a finished process whose blocks all start
    after its arrival completes no earlier than arrival plus burst.
   */
  lemma WaitingNonNegative(procs: seq<Proc>, g: seq<Block>, quantum: int, t: int, i: nat)
    requires Timeline(procs, g, quantum, t)
    requires i < |procs| && Finished(procs, g, i)
    ensures procs[i].completion - procs[i].arrival >= procs[i].burst
  {
    SliceTotalWithin(g, i, procs[i].arrival);
  }
}
