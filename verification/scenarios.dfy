/**
  A small worked run for both schedulers: a single process that arrives at
  time 0 with a burst no longer than the quantum runs once, from 0 to the end
  of its burst, and never waits.
 */
module Scenarios {
  import opened Optional
  import opened Processes
  import opened Metrics
  import opened Gantt
  import opened Admission
  import opened FirstCycle
  import opened StandardRR
  import opened EnhancedRR

  /** A process that arrives at 0 and fits in one quantum. */
  ghost predicate FitsOneQuantum(p: Proc, quantum: int) {
    p.arrival == 0 && 0 <= p.burst <= quantum
  }

  /** The fresh working copy a run makes of `p`. */
  function Fresh(p: Proc): Proc {
    NewProcess(p.name, p.arrival, p.burst)
  }

  /** The state the standard loop ends in for such a process. */
  function SingleEnd(p: Proc): State {
    State([Finalize(p.(remaining := 0, completion := p.burst))], [], [], p.burst, [Block(0, p.name, 0, p.burst)], 1)
  }

  /** The standard scheduler runs the process once and it never waits. */
  lemma SingleProcessStandard(p: Proc, quantum: int)
    requires quantum > 0 && FitsOneQuantum(p, quantum)
    ensures var r := StandardRoundRobin([p], quantum);
      && r.gantt == [Block(0, p.name, 0, p.burst)]
      && |r.procs| == 1
      && r.procs[0].completion == p.burst && r.procs[0].turnaround == p.burst && r.procs[0].waiting == 0
      && r.awt == 0.0 && r.atat == p.burst as real
  {
    SingleInitial(p);
    SingleRun(Fresh(p), quantum);
    SingleMeans(SingleEnd(Fresh(p)).procs, p.burst);
  }

  /** The enhanced scheduler does the same: one first-cycle slice and nothing left for the second phase. */
  lemma SingleProcessEnhanced(p: Proc, quantum: int)
    requires quantum > 0 && FitsOneQuantum(p, quantum)
    ensures var r := EnhancedRoundRobin([p], quantum);
      && r.gantt == [Block(0, p.name, 0, p.burst)]
      && |r.procs| == 1
      && r.procs[0].completion == p.burst && r.procs[0].turnaround == p.burst && r.procs[0].waiting == 0
      && r.awt == 0.0 && r.atat == p.burst as real
  {
    var r := EnhancedRoundRobin([p], quantum);
    SingleInitial(p);
    EnhancedRoundRobinCorrect([p], quantum);
    EnhancedFirstCycleLog([p], quantum);
    NothingLeft(p, quantum);
    EnhancedSecondPhaseLog([p], quantum);
    NoBlocksAfter(r.gantt, 1);
    SingleLog(r, p, quantum);
    SingleMeans(r.procs, p.burst);
  }

  /** A process that fits one quantum leaves nothing for the second phase. */
  lemma NothingLeft(p: Proc, quantum: int)
    requires quantum > 0 && FitsOneQuantum(p, quantum)
    ensures SecondOrder([p], quantum) == []
  {
    SingleInitial(p);
    SecondOrderSpec([p], quantum);
    NoMemberEmpty(SecondOrder([p], quantum));
  }

  lemma NoMemberEmpty(s: seq<nat>)
    ensures (forall x: nat :: x !in s) ==> s == []
  {
    if |s| > 0 {
      assert s[0] in s;
    }
  }

  /** A log whose blocks from `n` on belong to no process has at most `n` blocks. */
  lemma NoBlocksAfter(g: seq<Block>, n: nat)
    ensures (forall j :: n <= j < |g| ==> g[j].pid in []) ==> |g| <= n
  {
    if |g| > n {
      assert g[n].pid !in [];
    }
  }

  /** A complete one-process schedule whose only block is the first-cycle slice. */
  lemma SingleLog(r: SimResult, p: Proc, quantum: int)
    requires quantum > 0 && FitsOneQuantum(p, quantum)
    requires |r.procs| == 1 && SameIdentity(p, r.procs[0]) && Complete(r.procs, r.gantt, 2 * quantum)
    requires 1 <= |r.gantt| && r.gantt[0].pid == 0
    requires r.gantt[0].start == StartAt(EndOf(r.gantt[..0], 0), p.arrival)
    requires Length(r.gantt[0]) == SliceLength(quantum, p.burst)
    requires |r.gantt| == 1
    ensures r.gantt == [Block(0, p.name, 0, p.burst)]
    ensures r.procs[0].completion == p.burst && r.procs[0].turnaround == p.burst && r.procs[0].waiting == 0
  {
    assert r.gantt[..0] == [];
    assert LastEnd(r.gantt, 0) == Some(p.burst) by {
      assert r.gantt[..0] == [];
    }
  }

  lemma SingleInitial(p: Proc)
    ensures Initial([p]) == [Fresh(p)]
  {
    assert Copies([p]) == [Fresh(p)];
  }

  lemma SingleRun(p: Proc, quantum: int)
    requires quantum > 0 && Pristine(p) && FitsOneQuantum(p, quantum)
    ensures Run(Start([p]), quantum) == SingleEnd(p)
  {
    SingleAdmit(p);
    SingleDispatch(p, quantum);
    RunSteps(Start([p]), quantum);
    RunSteps(SingleEnd(p), quantum);
  }

  lemma SingleAdmit(p: Proc)
    requires p.arrival == 0 && p.remaining >= 0
    ensures AdmitArrivals(Start([p])) == State([p], [], [0], 0, [], 0)
  {
    assert Range(0, 1) == [0];
    assert [0][1..] == [];
    assert Arrived([p], [0], 0) == [0] && Pending([p], [0], 0) == [];
  }

  lemma SingleDispatch(p: Proc, quantum: int)
    requires quantum > 0 && Pristine(p) && FitsOneQuantum(p, quantum)
    ensures Dispatch(State([p], [], [0], 0, [], 0), quantum) == SingleEnd(p)
  {
    assert Pending([p], [], p.burst) == [] && Arrived([p], [], p.burst) == [];
  }

  lemma SingleMeans(procs: seq<Proc>, b: int)
    requires |procs| == 1 && procs[0].turnaround == b && procs[0].waiting == 0
    ensures Mean(Waitings(procs)) == 0.0 && Mean(Turnarounds(procs)) == b as real
  {
    assert Waitings(procs) == [0] && Turnarounds(procs) == [b];
    SumOfOne(0);
    SumOfOne(b);
  }

  lemma SumOfOne(v: int)
    ensures Sum([v]) == v
  {
    assert [v][1..] == [];
  }
}
