/**
  The first phase of Enhanced Round Robin (`runEnhancedRoundRobin`, first
  loop): processes are admitted from the job pool as in the standard
  scheduler, but each runs a single slice of `min(quantum, remaining)` and is
  never re-queued; the phase ends once every process has had its slice.

  `FirstPass` is an independent reference for the same phase with no queues at
  all: process k runs once, in list order, starting when both the processor is
  free and the process has arrived. `CycleIsFirstPass` proves the two agree.
 */
module FirstCycle {
  import opened Optional
  import opened StableSort
  import opened Processes
  import opened Gantt
  import opened Admission

  /** Processes, clock and log after (part of) a phase. */
  datatype Pass = Pass(procs: seq<Proc>, time: int, gantt: seq<Block>)

  /**
    The loop state: the working process list, the job pool and ready queue
    (indices into `procs`), the clock, the Gantt log and the set of processes
    that have had their first-cycle slice.
   */
  datatype CycleState = CycleState(
    procs: seq<Proc>,
    job: seq<nat>,
    ready: seq<nat>,
    time: int,
    gantt: seq<Block>,
    executed: set<nat>)

  ghost predicate WellFormed(st: CycleState) {
    IndicesIn(st.job, |st.procs|) && IndicesIn(st.ready, |st.procs|)
  }

  /** Every process of the list has had its slice. */
  predicate AllExecuted(st: CycleState) {
    forall i :: 0 <= i < |st.procs| ==> i in st.executed
  }

  /** Moves every process of the pool that has arrived to the tail of the ready queue. */
  function Admit(st: CycleState): (r: CycleState)
    requires WellFormed(st)
    ensures WellFormed(r)
    ensures r.procs == st.procs && r.time == st.time && r.gantt == st.gantt && r.executed == st.executed
    ensures |r.job| + |r.ready| == |st.job| + |st.ready|
    ensures forall k :: 0 <= k < |r.job| ==> r.procs[r.job[k]].arrival > r.time
  {
    AdmissionSplitsPool(st.procs, st.job, st.time);
    st.(job := Pending(st.procs, st.job, st.time),
        ready := st.ready + Arrived(st.procs, st.job, st.time))
  }

  /**
    What admission does to the queues: the ready queue keeps its old contents
    as a prefix and everything behind it has arrived, what stays in the pool
    has not, and no process is lost or duplicated.
   */
  lemma AdmitMoves(st: CycleState)
    requires WellFormed(st)
    ensures var r := Admit(st);
      && |st.ready| <= |r.ready| && r.ready[..|st.ready|] == st.ready
      && (forall k :: |st.ready| <= k < |r.ready| ==> r.procs[r.ready[k]].arrival <= r.time)
      && (forall k :: 0 <= k < |r.job| ==> r.procs[r.job[k]].arrival > r.time)
      && multiset(r.job + r.ready) == multiset(st.job + st.ready)
  {
    AdmissionSplitsPool(st.procs, st.job, st.time);
  }

  /**
    A process after its first-cycle slice ending at `now`: the remaining burst
    drops by the slice, and a process with nothing left records `now` as its
    completion time (its metrics come only after the last phase). Nothing else
    about the process changes.
   */
  function FirstSlice(p: Proc, slice: int, now: int): (r: Proc)
    ensures SameIdentity(p, r) && r.remaining == p.remaining - slice
    ensures r.remaining <= 0 ==> r.completion == now
    ensures r.remaining > 0 ==> r.completion == p.completion
    ensures r == p.(remaining := r.remaining, completion := r.completion)
  {
    var left := p.remaining - slice;
    if left <= 0 then p.(remaining := left, completion := now) else p.(remaining := left)
  }

  /** The head of the ready queue runs one slice and is marked as executed; it does not rejoin. */
  function RunOnce(st: CycleState, quantum: int): (r: CycleState)
    requires quantum > 0 && WellFormed(st) && st.ready != []
    ensures WellFormed(r) && SameIdentities(st.procs, r.procs)
    ensures |r.job| + |r.ready| < |st.job| + |st.ready|
  {
    var h := st.ready[0];
    var p := st.procs[h];
    var slice := SliceLength(quantum, p.remaining);
    var now := st.time + slice;
    CycleState(
      st.procs[h := FirstSlice(p, slice, now)],
      st.job,
      st.ready[1..],
      now,
      st.gantt + [Block(h, p.name, st.time, now)],
      st.executed + {h})
  }

  /** One idle tick: the clock advances while nothing is ready. */
  function Tick(st: CycleState): CycleState {
    st.(time := st.time + 1)
  }

  /**
    The first loop: while some process has not had its slice, admit arrivals;
    with an empty ready queue stop if the pool is empty or everyone has run,
    otherwise let one idle tick pass; else run the head of the queue once.
   */
  function Cycle(st: CycleState, quantum: int): (r: CycleState)
    requires quantum > 0 && WellFormed(st)
    ensures SameIdentities(st.procs, r.procs)
    decreases |st.job| + |st.ready|, MaxArrival(st.procs) - st.time
  {
    if |st.executed| >= |st.procs| then st
    else
      var a := Admit(st);
      if a.ready == [] then
        if a.job == [] || AllExecuted(a) then a
        else
          assert a.procs[a.job[0]].arrival > a.time;
          Cycle(Tick(a), quantum)
      else
        Cycle(RunOnce(a, quantum), quantum)
  }

  /** What the phase hands on to the next: processes, clock and log. */
  function Outcome(st: CycleState): Pass {
    Pass(st.procs, st.time, st.gantt)
  }

  /** The state before the first loop: every process in the pool, in list order. */
  function StartCycle(procs: seq<Proc>): CycleState {
    CycleState(procs, Range(0, |procs|), [], 0, [], {})
  }

  /** When process k can start: once the processor is free at `t` and the process has arrived. */
  function StartAt(t: int, arrival: int): (s: int)
    ensures s >= t && s >= arrival
    ensures s == t || s == arrival
  {
    if t < arrival then arrival else t
  }

  /**
    Reference for the first phase: processes k, k + 1, ... each run one slice
    of `min(quantum, remaining)` in list order, starting when both the
    processor and the process are ready.
   */
  function FirstPass(procs: seq<Proc>, k: nat, t: int, g: seq<Block>, quantum: int): (r: Pass)
    requires k <= |procs|
    ensures |r.procs| == |procs| && |r.gantt| == |g| + |procs| - k
    decreases |procs| - k
  {
    if k == |procs| then Pass(procs, t, g)
    else
      var next := FirstStep(procs, k, t, g, quantum);
      FirstPass(next.procs, k + 1, next.time, next.gantt, quantum)
  }

  /** One step of the reference: process k runs its slice. */
  function FirstStep(procs: seq<Proc>, k: nat, t: int, g: seq<Block>, quantum: int): (r: Pass)
    requires k < |procs|
    ensures |r.procs| == |procs| && |r.gantt| == |g| + 1
  {
    var p := procs[k];
    var s := StartAt(t, p.arrival);
    var slice := SliceLength(quantum, p.remaining);
    Pass(procs[k := FirstSlice(p, slice, s + slice)], s + slice, g + [Block(k, p.name, s, s + slice)])
  }

  // ---------------------------------------------------------------------
  // The loop is the reference

  /**
    The loop state after k processes have had their slice: the ready queue
    followed by the pool is exactly processes k, ..., n - 1; the executed set
    is processes 0, ..., k - 1; queued processes have arrived; the list is
    ordered by arrival.
   */
  ghost predicate CycleInv(st: CycleState, k: nat) {
    && WellFormed(st)
    && k <= |st.procs|
    && st.ready + st.job == Range(k, |st.procs|)
    && (forall i: nat :: i in st.executed <==> i < k)
    && |st.executed| == k
    && SortedBy(st.procs, Arrival)
    && (forall i :: 0 <= i < |st.procs| ==> st.procs[i].remaining >= 0)
    && (forall j :: 0 <= j < |st.ready| ==> st.procs[st.ready[j]].arrival <= st.time)
  }

  lemma StartCycleInv(procs: seq<Proc>)
    requires SortedBy(procs, Arrival)
    requires forall i :: 0 <= i < |procs| ==> procs[i].remaining >= 0
    ensures CycleInv(StartCycle(procs), 0)
  {
    assert [] + Range(0, |procs|) == Range(0, |procs|);
  }

  /** Admission keeps the pool a suffix of the range: the queue takes a prefix of it. */
  lemma AdmitKeepsCycleInv(st: CycleState, k: nat)
    requires CycleInv(st, k)
    ensures CycleInv(Admit(st), k)
  {
    var a := Admit(st);
    AdmitKeepsRange(st, k);
    var arrived := Arrived(st.procs, st.job, st.time);
    assert a.ready == st.ready + arrived;
    forall j | 0 <= j < |a.ready| ensures a.procs[a.ready[j]].arrival <= a.time {
      if j >= |st.ready| {
        assert a.ready[j] == arrived[j - |st.ready|];
      }
    }
  }

  lemma AdmitKeepsRange(st: CycleState, k: nat)
    requires WellFormed(st) && k <= |st.procs| && st.ready + st.job == Range(k, |st.procs|)
    requires SortedBy(st.procs, Arrival)
    ensures Admit(st).ready + Admit(st).job == Range(k, |st.procs|)
  {
    PoolSplitKeepsRange(st.procs, st.ready, st.job, k, st.time);
  }

  /** Admitting from a pool that completes an index range keeps the queue and pool one range. */
  lemma PoolSplitKeepsRange(procs: seq<Proc>, ready: seq<nat>, job: seq<nat>, k: nat, t: int)
    requires IndicesIn(job, |procs|) && k <= |procs| && ready + job == Range(k, |procs|)
    requires SortedBy(procs, Arrival)
    ensures (ready + Arrived(procs, job, t)) + Pending(procs, job, t) == Range(k, |procs|)
  {
    RangeSuffix(ready, job, k, |procs|);
    RangeArrivalOrdered(procs, k + |ready|, |procs|);
    ArrivedIsPrefix(procs, job, t);
    var arrived, pending := Arrived(procs, job, t), Pending(procs, job, t);
    assert (ready + arrived) + pending == ready + (arrived + pending);
  }

  /** Changing processes without changing their arrival keeps the list ordered. */
  lemma SortedKeepsIdentity(procs: seq<Proc>, procs': seq<Proc>)
    requires SortedBy(procs, Arrival) && SameIdentities(procs, procs')
    ensures SortedBy(procs', Arrival)
  {
    forall i, j | 0 <= i < j < |procs'| ensures Arrival(procs'[i]) <= Arrival(procs'[j]) {
      assert Arrival(procs[i]) <= Arrival(procs[j]);
    }
  }

  /** Running the head once moves from k to k + 1. */
  lemma RunOnceKeepsCycleInv(a: CycleState, k: nat, quantum: int)
    requires quantum > 0 && CycleInv(a, k) && a.ready != []
    ensures k < |a.procs| && a.ready[0] == k
    ensures CycleInv(RunOnce(a, quantum), k + 1)
  {
    var n := |a.procs|;
    var r := RunOnce(a, quantum);
    assert (a.ready + a.job)[0] == a.ready[0];
    assert Range(k, n) == [k] + Range(k + 1, n);
    assert r.ready + r.job == (a.ready + a.job)[1..];
    SortedKeepsIdentity(a.procs, r.procs);
    assert k !in a.executed;
    assert r.time >= a.time;
    forall j | 0 <= j < |r.ready| ensures r.procs[r.ready[j]].arrival <= r.time {
      assert r.ready[j] == a.ready[j + 1];
      assert SameIdentity(a.procs[r.ready[j]], r.procs[r.ready[j]]);
    }
  }

  /** An idle tick before process k arrives does not move its start. */
  lemma IdleTickKeepsPass(procs: seq<Proc>, k: nat, t: int, g: seq<Block>, quantum: int)
    requires k < |procs| && procs[k].arrival > t
    ensures FirstPass(procs, k, t, g, quantum) == FirstPass(procs, k, t + 1, g, quantum)
  {
  }

  /** Running the head once is one step of the reference. */
  lemma RunOnceIsPassStep(a: CycleState, k: nat, quantum: int)
    requires quantum > 0 && CycleInv(a, k) && a.ready != [] && a.ready[0] == k
    ensures var r := RunOnce(a, quantum);
      FirstPass(a.procs, k, a.time, a.gantt, quantum) == FirstPass(r.procs, k + 1, r.time, r.gantt, quantum)
  {
    assert StartAt(a.time, a.procs[k].arrival) == a.time;
    assert Outcome(RunOnce(a, quantum)) == FirstStep(a.procs, k, a.time, a.gantt, quantum);
  }

  /** With nothing ready after admission, process k is next in the pool and has not arrived yet. */
  lemma NothingReady(st: CycleState, k: nat)
    requires CycleInv(st, k) && |st.executed| < |st.procs| && Admit(st).ready == []
    ensures var a := Admit(st);
      && CycleInv(a, k) && k < |a.procs| && a.job != [] && a.job[0] == k
      && a.procs[k].arrival > a.time && !AllExecuted(a)
  {
    var a := Admit(st);
    AdmitKeepsCycleInv(st, k);
    assert a.job == Range(k, |st.procs|);
    assert k !in a.executed;
  }

  /** The idle branch of the loop, given what the loop computes after the tick. */
  lemma IdleBranch(st: CycleState, k: nat, quantum: int)
    requires quantum > 0 && CycleInv(st, k) && |st.executed| < |st.procs| && Admit(st).ready == []
    requires var a := Admit(st);
      Outcome(Cycle(Tick(a), quantum)) == FirstPass(Tick(a).procs, k, Tick(a).time, Tick(a).gantt, quantum)
    ensures Outcome(Cycle(st, quantum)) == FirstPass(st.procs, k, st.time, st.gantt, quantum)
  {
    var a := Admit(st);
    NothingReady(st, k);
    IdleUnfolds(st, quantum);
    IdleTickKeepsPass(a.procs, k, a.time, a.gantt, quantum);
  }

  lemma TickKeepsCycleInv(a: CycleState, k: nat)
    requires CycleInv(a, k) && a.ready == []
    ensures CycleInv(Tick(a), k)
  {
  }

  lemma IdleUnfolds(st: CycleState, quantum: int)
    requires quantum > 0 && WellFormed(st) && |st.executed| < |st.procs|
    requires Admit(st).ready == [] && Admit(st).job != [] && !AllExecuted(Admit(st))
    ensures Cycle(st, quantum) == Cycle(Tick(Admit(st)), quantum)
  {
  }

  /** With a process ready, the loop runs it once, which is the reference's next step. */
  lemma DispatchStep(st: CycleState, k: nat, quantum: int)
    requires quantum > 0 && CycleInv(st, k) && |st.executed| < |st.procs| && Admit(st).ready != []
    ensures var a := Admit(st);
      var r := RunOnce(a, quantum);
      && CycleInv(r, k + 1)
      && |r.job| + |r.ready| < |st.job| + |st.ready|
      && Cycle(st, quantum) == Cycle(r, quantum)
      && FirstPass(st.procs, k, st.time, st.gantt, quantum) == FirstPass(r.procs, k + 1, r.time, r.gantt, quantum)
  {
    var a := Admit(st);
    AdmitKeepsCycleInv(st, k);
    RunOnceKeepsCycleInv(a, k, quantum);
    RunOnceIsPassStep(a, k, quantum);
  }

  /** From any state of the loop with k processes done, the loop ends where the reference does. */
  lemma {:induction false} CycleMatchesPass(st: CycleState, k: nat, quantum: int)
    requires quantum > 0 && CycleInv(st, k)
    ensures Outcome(Cycle(st, quantum)) == FirstPass(st.procs, k, st.time, st.gantt, quantum)
    decreases |st.job| + |st.ready|, MaxArrival(st.procs) - st.time, 1
  {
    if |st.executed| < |st.procs| {
      if Admit(st).ready == [] {
        IdleMatchesPass(st, k, quantum);
      } else {
        DispatchMatchesPass(st, k, quantum);
      }
    }
  }

  /** The idle branch of the loop ends where the reference does. */
  lemma {:induction false} IdleMatchesPass(st: CycleState, k: nat, quantum: int)
    requires quantum > 0 && CycleInv(st, k) && |st.executed| < |st.procs| && Admit(st).ready == []
    ensures Outcome(Cycle(st, quantum)) == FirstPass(st.procs, k, st.time, st.gantt, quantum)
    decreases |st.job| + |st.ready|, MaxArrival(st.procs) - st.time, 0
  {
    var a := Admit(st);
    NothingReady(st, k);
    TickKeepsCycleInv(a, k);
    assert a.procs[k].arrival <= MaxArrival(a.procs);
    CycleMatchesPass(Tick(a), k, quantum);
    IdleBranch(st, k, quantum);
  }

  /** The dispatch branch of the loop ends where the reference does. */
  lemma {:induction false} DispatchMatchesPass(st: CycleState, k: nat, quantum: int)
    requires quantum > 0 && CycleInv(st, k) && |st.executed| < |st.procs| && Admit(st).ready != []
    ensures Outcome(Cycle(st, quantum)) == FirstPass(st.procs, k, st.time, st.gantt, quantum)
    decreases |st.job| + |st.ready|, MaxArrival(st.procs) - st.time, 0
  {
    DispatchStep(st, k, quantum);
    CycleMatchesPass(RunOnce(Admit(st), quantum), k + 1, quantum);
  }

  /**
    The first loop of the enhanced scheduler, started on a list ordered by
    arrival, computes exactly the reference pass over processes 0, 1, ..., n - 1.
   */
  lemma CycleIsFirstPass(procs: seq<Proc>, quantum: int)
    requires quantum > 0 && SortedBy(procs, Arrival)
    requires forall i :: 0 <= i < |procs| ==> procs[i].remaining >= 0
    ensures Outcome(Cycle(StartCycle(procs), quantum)) == FirstPass(procs, 0, 0, [], quantum)
  {
    StartCycleInv(procs);
    CycleMatchesPass(StartCycle(procs), 0, quantum);
  }

  // ---------------------------------------------------------------------
  // What the first phase does

  /** The pass keeps who the processes are and only appends to the log. */
  lemma {:induction false} FirstPassKeeps(procs: seq<Proc>, k: nat, t: int, g: seq<Block>, quantum: int)
    requires k <= |procs|
    ensures var r := FirstPass(procs, k, t, g, quantum);
      SameIdentities(procs, r.procs) && r.gantt[..|g|] == g
    decreases |procs| - k
  {
    if k < |procs| {
      var next := FirstStep(procs, k, t, g, quantum);
      FirstPassKeeps(next.procs, k + 1, next.time, next.gantt, quantum);
      var r := FirstPass(procs, k, t, g, quantum);
      assert r == FirstPass(next.procs, k + 1, next.time, next.gantt, quantum);
      assert r.gantt[..|g|] == r.gantt[..|g| + 1][..|g|];
    }
  }

  /** End of the previous slice of the pass: `t` for the first one. */
  function PrevEnd(g: seq<Block>, from: nat, j: nat, t: int): int
    requires from <= j <= |g|
  {
    if j == from then t else g[j - 1].end
  }

  /**
    The log of the first phase: after the blocks already there, process i
    (i = k, ..., n - 1) has exactly one block, the (i - k)-th new one; it starts
    when the previous slice has ended and the process has arrived, and lasts
    `min(quantum, remaining)`.
   */
  lemma {:induction false} FirstPassLog(procs: seq<Proc>, k: nat, t: int, g: seq<Block>, quantum: int)
    requires k <= |procs|
    ensures var r := FirstPass(procs, k, t, g, quantum);
      forall i :: k <= i < |procs| ==>
        var j := |g| + i - k;
        var s := StartAt(PrevEnd(r.gantt, |g|, j, t), procs[i].arrival);
        r.gantt[j] == Block(i, procs[i].name, s, s + SliceLength(quantum, procs[i].remaining))
    decreases |procs| - k
  {
    if k < |procs| {
      var next := FirstStep(procs, k, t, g, quantum);
      FirstPassLog(next.procs, k + 1, next.time, next.gantt, quantum);
      FirstPassKeeps(next.procs, k + 1, next.time, next.gantt, quantum);
      var r := FirstPass(procs, k, t, g, quantum);
      assert r == FirstPass(next.procs, k + 1, next.time, next.gantt, quantum);
      assert r.gantt[..|g| + 1] == next.gantt;
      assert r.gantt[|g|] == next.gantt[|g|];
      forall i | k < i < |procs|
        ensures var j := |g| + i - k;
          var s := StartAt(PrevEnd(r.gantt, |g|, j, t), procs[i].arrival);
          r.gantt[j] == Block(i, procs[i].name, s, s + SliceLength(quantum, procs[i].remaining))
      {
        assert next.procs[i] == procs[i];
        var j := |g| + i - k;
        assert PrevEnd(r.gantt, |g|, j, t) == PrevEnd(r.gantt, |g| + 1, j, next.time);
      }
    }
  }

  /**
    The processes after the first phase: those before k are untouched, and
    process i >= k has had exactly the slice of its block taken off its
    remaining burst, completing at the end of that block if nothing is left.
   */
  lemma {:induction false} FirstPassProcs(procs: seq<Proc>, k: nat, t: int, g: seq<Block>, quantum: int)
    requires k <= |procs|
    ensures var r := FirstPass(procs, k, t, g, quantum);
      && (forall i :: 0 <= i < k ==> r.procs[i] == procs[i])
      && (forall i :: k <= i < |procs| ==>
            var b := r.gantt[|g| + i - k];
            r.procs[i] == FirstSlice(procs[i], Length(b), b.end))
    decreases |procs| - k
  {
    if k < |procs| {
      var next := FirstStep(procs, k, t, g, quantum);
      FirstPassProcs(next.procs, k + 1, next.time, next.gantt, quantum);
      FirstPassKeeps(next.procs, k + 1, next.time, next.gantt, quantum);
      var r := FirstPass(procs, k, t, g, quantum);
      assert r == FirstPass(next.procs, k + 1, next.time, next.gantt, quantum);
      assert r.gantt[..|g| + 1] == next.gantt;
      assert r.gantt[|g|] == next.gantt[|g|];
      forall i | k < i < |procs|
        ensures r.procs[i] == FirstSlice(procs[i], Length(r.gantt[|g| + i - k]), r.gantt[|g| + i - k].end)
      {
        assert next.procs[i] == procs[i];
      }
    }
  }

  /** The clock after the pass is the end of its last slice, or `t` when there was none. */
  lemma {:induction false} FirstPassTime(procs: seq<Proc>, k: nat, t: int, g: seq<Block>, quantum: int)
    requires k <= |procs|
    ensures var r := FirstPass(procs, k, t, g, quantum);
      r.time == if k == |procs| then t else r.gantt[|r.gantt| - 1].end
    decreases |procs| - k
  {
    if k < |procs| {
      var next := FirstStep(procs, k, t, g, quantum);
      FirstPassTime(next.procs, k + 1, next.time, next.gantt, quantum);
      var r := FirstPass(procs, k, t, g, quantum);
      assert r == FirstPass(next.procs, k + 1, next.time, next.gantt, quantum);
      if k + 1 == |procs| {
        assert r.gantt == next.gantt;
      }
    }
  }

  // ---------------------------------------------------------------------
  // The timeline through the first phase

  /** Every process below k with nothing left has finished at the end of its last block. */
  ghost predicate SettledBelow(procs: seq<Proc>, g: seq<Block>, k: nat) {
    forall i :: 0 <= i < k && i < |procs| && procs[i].remaining <= 0 ==> Finished(procs, g, i)
  }

  /**
    What each phase of the enhanced scheduler keeps: the timeline invariant
    with slices at most `bound` long, the clock at the end of the log, and
    idling only until an arrival.
   */
  ghost predicate PassInv(procs: seq<Proc>, g: seq<Block>, bound: int, t: int) {
    && Timeline(procs, g, bound, t)
    && t == EndOf(g, 0)
    && IdleOnlyUntilArrival(g, procs, 0)
  }

  /** The invariant of a phase, for a whole pass: processes below `n` with nothing left have finished. */
  ghost predicate PhaseOk(x: Pass, bound: int, n: nat) {
    PassInv(x.procs, x.gantt, bound, x.time) && SettledBelow(x.procs, x.gantt, n)
  }

  /**
    Appending a slice of process h from time s keeps the phase invariant when
    s is the current time or the arrival of h (and no earlier than either),
    and the slice fits the bound and the remaining burst.
   */
  lemma PassAppend(procs: seq<Proc>, g: seq<Block>, bound: int, t: int, s: int, h: nat, slice: int, p1: Proc)
    requires PassInv(procs, g, bound, t)
    requires h < |procs| && t <= s && procs[h].arrival <= s && (s == t || s == procs[h].arrival)
    requires 0 <= slice <= bound && slice <= procs[h].remaining
    requires SameIdentity(procs[h], p1) && p1.remaining == procs[h].remaining - slice
    ensures PassInv(procs[h := p1], g + [Block(h, procs[h].name, s, s + slice)], bound, s + slice)
    ensures forall i: nat :: i != h ==> LastEnd(g + [Block(h, procs[h].name, s, s + slice)], i) == LastEnd(g, i)
    ensures LastEnd(g + [Block(h, procs[h].name, s, s + slice)], h) == Some(s + slice)
  {
    var b := Block(h, procs[h].name, s, s + slice);
    EndsByLater(g, t, s);
    AppendSlice(procs, g, bound, s, h, slice, p1);
    AppendKeepsIdleRule(g, procs, procs[h := p1], 0, b);
  }

  /** Updating processes without changing who they are or what remains keeps the phase invariant. */
  lemma PassInvKeepsIdentity(procs: seq<Proc>, procs': seq<Proc>, g: seq<Block>, bound: int, t: int)
    requires PassInv(procs, g, bound, t) && SameIdentities(procs, procs')
    requires forall i :: 0 <= i < |procs| ==> procs'[i].remaining == procs[i].remaining
    ensures PassInv(procs', g, bound, t)
  {
    TimelineKeepsIdentity(procs, procs', g, bound, t);
    IdleRuleKeepsIdentity(g, procs, procs', 0);
  }

  /** After a slice of process k, processes below k + 1 with nothing left have finished. */
  lemma SettleStep(procs: seq<Proc>, g: seq<Block>, k: nat, p1: Proc, g1: seq<Block>)
    requires k < |procs| && SettledBelow(procs, g, k) && p1.remaining >= 0
    requires forall i: nat :: i != k ==> LastEnd(g1, i) == LastEnd(g, i)
    requires p1.remaining <= 0 ==> LastEnd(g1, k) == Some(p1.completion)
    ensures SettledBelow(procs[k := p1], g1, k + 1)
  {
    var procs1 := procs[k := p1];
    forall i | 0 <= i < k + 1 && i < |procs1| && procs1[i].remaining <= 0
      ensures Finished(procs1, g1, i)
    {
      if i < k {
        assert procs1[i] == procs[i];
      }
    }
  }

  /** One step of the reference keeps the timeline and settles process k if it is done. */
  lemma FirstStepKeepsInv(procs: seq<Proc>, k: nat, t: int, g: seq<Block>, quantum: int, bound: int)
    requires 0 < quantum <= bound && k < |procs|
    requires PassInv(procs, g, bound, t) && SettledBelow(procs, g, k)
    ensures PassInv(FirstStep(procs, k, t, g, quantum).procs, FirstStep(procs, k, t, g, quantum).gantt,
                    bound, FirstStep(procs, k, t, g, quantum).time)
    ensures SettledBelow(FirstStep(procs, k, t, g, quantum).procs, FirstStep(procs, k, t, g, quantum).gantt, k + 1)
  {
    var p := procs[k];
    var s := StartAt(t, p.arrival);
    var slice := SliceLength(quantum, p.remaining);
    var p1 := FirstSlice(p, slice, s + slice);
    var g1 := g + [Block(k, p.name, s, s + slice)];
    assert p.remaining >= 0;
    PassAppend(procs, g, bound, t, s, k, slice, p1);
    SettleStep(procs, g, k, p1, g1);
    assert FirstStep(procs, k, t, g, quantum) == Pass(procs[k := p1], s + slice, g1);
  }

  /**
    The first phase keeps the timeline: every slice starts after its process
    arrived and after the previous slice, is at most a quantum long, and the
    time executed plus the time remaining is the burst; the processor idles
    only until an arrival; a process with nothing left has completed at the
    end of its slice.
   */
  lemma FirstPassTimeline(procs: seq<Proc>, k: nat, t: int, g: seq<Block>, quantum: int, bound: int)
    requires 0 < quantum <= bound && k <= |procs|
    requires PhaseOk(Pass(procs, t, g), bound, k)
    ensures PhaseOk(FirstPass(procs, k, t, g, quantum), bound, |procs|)
  {
    FirstPassKeepsTimeline(procs, k, t, g, quantum, bound);
    FirstPassKeepsClock(procs, k, t, g, quantum);
    FirstPassKeepsIdleRule(procs, k, t, g, quantum, bound);
    FirstPassKeepsSettled(procs, k, t, g, quantum, bound);
  }

  lemma {:induction false} FirstPassKeepsTimeline(procs: seq<Proc>, k: nat, t: int, g: seq<Block>, quantum: int, bound: int)
    requires 0 < quantum <= bound && k <= |procs|
    requires PhaseOk(Pass(procs, t, g), bound, k)
    ensures var r := FirstPass(procs, k, t, g, quantum); Timeline(r.procs, r.gantt, bound, r.time)
    decreases |procs| - k
  {
    if k < |procs| {
      var next := FirstStep(procs, k, t, g, quantum);
      FirstPassStep(procs, k, t, g, quantum, bound);
      FirstPassKeepsTimeline(next.procs, k + 1, next.time, next.gantt, quantum, bound);
    } else {
      assert FirstPass(procs, k, t, g, quantum) == Pass(procs, t, g);
    }
  }

  lemma FirstPassKeepsClock(procs: seq<Proc>, k: nat, t: int, g: seq<Block>, quantum: int)
    requires k <= |procs| && t == EndOf(g, 0)
    ensures var r := FirstPass(procs, k, t, g, quantum); r.time == EndOf(r.gantt, 0)
  {
    FirstPassTime(procs, k, t, g, quantum);
    if k == |procs| {
      assert FirstPass(procs, k, t, g, quantum) == Pass(procs, t, g);
    }
  }

  lemma {:induction false} FirstPassKeepsIdleRule(procs: seq<Proc>, k: nat, t: int, g: seq<Block>, quantum: int, bound: int)
    requires 0 < quantum <= bound && k <= |procs|
    requires PhaseOk(Pass(procs, t, g), bound, k)
    ensures var r := FirstPass(procs, k, t, g, quantum); IdleOnlyUntilArrival(r.gantt, r.procs, 0)
    decreases |procs| - k
  {
    if k < |procs| {
      var next := FirstStep(procs, k, t, g, quantum);
      FirstPassStep(procs, k, t, g, quantum, bound);
      FirstPassKeepsIdleRule(next.procs, k + 1, next.time, next.gantt, quantum, bound);
    } else {
      assert FirstPass(procs, k, t, g, quantum) == Pass(procs, t, g);
    }
  }

  lemma {:induction false} FirstPassKeepsSettled(procs: seq<Proc>, k: nat, t: int, g: seq<Block>, quantum: int, bound: int)
    requires 0 < quantum <= bound && k <= |procs|
    requires PhaseOk(Pass(procs, t, g), bound, k)
    ensures var r := FirstPass(procs, k, t, g, quantum); SettledBelow(r.procs, r.gantt, |procs|)
    decreases |procs| - k
  {
    if k < |procs| {
      var next := FirstStep(procs, k, t, g, quantum);
      FirstPassStep(procs, k, t, g, quantum, bound);
      FirstPassKeepsSettled(next.procs, k + 1, next.time, next.gantt, quantum, bound);
    } else {
      assert FirstPass(procs, k, t, g, quantum) == Pass(procs, t, g);
    }
  }

  /** One step of the reference keeps the phase invariant and leaves the rest of the pass to do. */
  lemma FirstPassStep(procs: seq<Proc>, k: nat, t: int, g: seq<Block>, quantum: int, bound: int)
    requires 0 < quantum <= bound && k < |procs|
    requires PhaseOk(Pass(procs, t, g), bound, k)
    ensures var next := FirstStep(procs, k, t, g, quantum);
      && PhaseOk(Pass(next.procs, next.time, next.gantt), bound, k + 1)
      && FirstPass(procs, k, t, g, quantum) == FirstPass(next.procs, k + 1, next.time, next.gantt, quantum)
  {
    FirstStepKeepsInv(procs, k, t, g, quantum, bound);
    FirstPassUnfold(procs, k, t, g, quantum);
  }

  /** The reference, one step unfolded. */
  lemma FirstPassUnfold(procs: seq<Proc>, k: nat, t: int, g: seq<Block>, quantum: int)
    requires k < |procs|
    ensures FirstPass(procs, k, t, g, quantum)
         == FirstPass(FirstStep(procs, k, t, g, quantum).procs, k + 1, FirstStep(procs, k, t, g, quantum).time,
                      FirstStep(procs, k, t, g, quantum).gantt, quantum)
  {
  }
}
