/**
  Standard Round Robin (`runStandardRoundRobin`): one FIFO ready queue fed from
  a job pool of processes that have not arrived yet. Each turn the head of the
  queue runs for `min(quantum, remaining)`; processes that arrived meanwhile
  join the queue before the preempted process goes back to its tail.
 */
module StandardRR {
  import opened Optional
  import opened StableSort
  import opened Processes
  import opened Metrics
  import opened Gantt
  import opened Admission

  /**
    The loop state: the working process list, the job pool and ready queue
    (indices into `procs`), the clock, the Gantt log and the number of
    completed processes.
   */
  datatype State = State(
    procs: seq<Proc>,
    job: seq<nat>,
    ready: seq<nat>,
    time: int,
    gantt: seq<Block>,
    completed: nat)

  ghost predicate WellFormed(st: State) {
    && IndicesIn(st.job, |st.procs|)
    && IndicesIn(st.ready, |st.procs|)
    && forall i :: 0 <= i < |st.procs| ==> st.procs[i].remaining >= 0
  }

  /** First termination measure: unexecuted time plus unfinished processes. */
  function Progress(st: State): int {
    TotalRemaining(st.procs) + |st.procs| - st.completed
  }

  /** Moves every process of the pool that has arrived to the tail of the ready queue. */
  function AdmitArrivals(st: State): (r: State)
    requires WellFormed(st)
    ensures WellFormed(r)
    ensures r.procs == st.procs && r.time == st.time && r.gantt == st.gantt && r.completed == st.completed
    ensures forall k :: 0 <= k < |r.job| ==> r.procs[r.job[k]].arrival > r.time
  {
    st.(job := Pending(st.procs, st.job, st.time),
        ready := st.ready + Arrived(st.procs, st.job, st.time))
  }

  /**
    A process after running `slice` time units up to time `now`: its remaining
    burst drops by the slice, and if nothing remains it completes at `now` with
    its metrics recorded. Nothing else about the process changes.
   */
  function AfterSlice(p: Proc, slice: int, now: int): (r: Proc)
    ensures SameIdentity(p, r) && r.remaining == p.remaining - slice
    ensures r.remaining > 0 ==> r == p.(remaining := r.remaining)
    ensures r.remaining <= 0 ==> r.completion == now && MetricsConsistent(r)
    ensures r.remaining <= 0 ==>
      r == p.(remaining := r.remaining, completion := now, turnaround := r.turnaround, waiting := r.waiting)
  {
    var left := p.remaining - slice;
    if left > 0 then p.(remaining := left)
    else Finalize(p.(remaining := left, completion := now))
  }

  /**
    One turn of the processor: the head of the ready queue runs one slice, the
    processes that arrived by its end are admitted, and then the slice's
    process either rejoins the tail or completes.
   */
  function Dispatch(st: State, quantum: int): (r: State)
    requires quantum > 0 && WellFormed(st) && st.ready != []
    ensures WellFormed(r) && SameIdentities(st.procs, r.procs)
    ensures Progress(r) < Progress(st)
    ensures st.time <= r.time
  {
    var h := st.ready[0];
    var p := st.procs[h];
    var slice := SliceLength(quantum, p.remaining);
    var now := st.time + slice;
    var p' := AfterSlice(p, slice, now);
    var requeued := p'.remaining > 0;
    TotalRemainingUpdate(st.procs, h, p');
    State(
      st.procs[h := p'],
      Pending(st.procs, st.job, now),
      st.ready[1..] + Arrived(st.procs, st.job, now) + (if requeued then [h] else []),
      now,
      st.gantt + [Block(h, p.name, st.time, now)],
      if requeued then st.completed else st.completed + 1)
  }

  /**
    The main loop: while some process is unfinished, admit arrivals; with an
    empty ready queue either stop (empty pool) or let one idle tick pass,
    otherwise dispatch the head of the queue.
   */
  function Run(st: State, quantum: int): (r: State)
    requires quantum > 0 && WellFormed(st)
    ensures SameIdentities(st.procs, r.procs)
    ensures r.completed >= |r.procs| || (r.job == [] && r.ready == [])
    decreases Progress(st), MaxArrival(st.procs) - st.time
  {
    if st.completed >= |st.procs| then st
    else
      TotalRemainingNonNegative(st.procs);
      var a := AdmitArrivals(st);
      if a.ready == [] then
        if a.job == [] then a
        else
          IdleTickShrinks(a);
          Run(IdleTick(a), quantum)
      else
        Run(Dispatch(a, quantum), quantum)
  }

  /** One idle tick: the clock advances while nothing is ready. */
  function IdleTick(st: State): State {
    st.(time := st.time + 1)
  }

  /** An idle tick keeps the progress measure and brings the clock closer to the last arrival. */
  lemma IdleTickShrinks(st: State)
    requires WellFormed(st) && st.job != []
    requires st.procs[st.job[0]].arrival > st.time
    ensures WellFormed(IdleTick(st)) && Progress(IdleTick(st)) == Progress(st)
    ensures 0 <= MaxArrival(st.procs) - IdleTick(st).time < MaxArrival(st.procs) - st.time
  {
  }

  /**
    What admission does to the queues: the ready queue keeps its old contents
    as a prefix and everything behind it has arrived, what stays in the pool
    has not, and no process is lost or duplicated.
   */
  lemma AdmitArrivalsMoves(st: State)
    requires WellFormed(st)
    ensures var r := AdmitArrivals(st);
      && |st.ready| <= |r.ready| && r.ready[..|st.ready|] == st.ready
      && (forall k :: |st.ready| <= k < |r.ready| ==> r.procs[r.ready[k]].arrival <= r.time)
      && (forall k :: 0 <= k < |r.job| ==> r.procs[r.job[k]].arrival > r.time)
      && multiset(r.job + r.ready) == multiset(st.job + st.ready)
  {
    AdmissionSplitsPool(st.procs, st.job, st.time);
  }

  /** The state before the loop: every process in the pool, in list order. */
  function Start(procs: seq<Proc>): State {
    State(procs, Range(0, |procs|), [], 0, [], 0)
  }

  /** `runStandardRoundRobin`: simulates the run and averages the metrics. */
  function StandardRoundRobin(ps: seq<Proc>, quantum: int): SimResult
    requires quantum > 0
    requires forall i :: 0 <= i < |ps| ==> ps[i].burst >= 0
  {
    InitialBurstsNonNegative(ps);
    var r := Run(Start(Initial(ps)), quantum);
    SimResult(r.procs, r.gantt, Mean(Waitings(r.procs)), Mean(Turnarounds(r.procs)))
  }

  // ---------------------------------------------------------------------
  // Loop invariant

  /**
    Each process is in exactly one of the job pool, the ready queue and the
    finished set; finished processes have their metrics recorded.
   */
  ghost predicate QueueInv(st: State) {
    && Unique(st.job + st.ready)
    && st.completed + |st.job| + |st.ready| == |st.procs|
    && FinishedOutsideQueues(st)
  }

  /** A process in neither the job pool nor the ready queue has finished. */
  ghost predicate FinishedOutsideQueues(st: State) {
    forall i :: 0 <= i < |st.procs| && i !in st.job && i !in st.ready ==>
      Finished(st.procs, st.gantt, i) && MetricsConsistent(st.procs[i])
  }

  /**
    The clock: queued processes have arrived; and the clock is at the end of
    the log unless idle ticks have run, in which case nobody queued or pooled
    arrived before now.
   */
  ghost predicate ClockInv(st: State)
    requires WellFormed(st)
  {
    && (forall k :: 0 <= k < |st.ready| ==> st.procs[st.ready[k]].arrival <= st.time)
    && (|| st.time == EndOf(st.gantt, 0)
        || ((forall k :: 0 <= k < |st.ready| ==> st.procs[st.ready[k]].arrival == st.time)
            && (forall k :: 0 <= k < |st.job| ==> st.procs[st.job[k]].arrival >= st.time)))
  }

  ghost predicate Inv(st: State, quantum: int) {
    && WellFormed(st)
    && Timeline(st.procs, st.gantt, quantum, st.time)
    && IdleOnlyUntilArrival(st.gantt, st.procs, 0)
    && ClockInv(st)
    && QueueInv(st)
  }

  lemma StartInv(procs: seq<Proc>, quantum: int)
    requires quantum > 0
    requires forall i :: 0 <= i < |procs| ==> procs[i].remaining == procs[i].burst >= 0
    ensures Inv(Start(procs), quantum)
  {
    var st := Start(procs);
    RangeUnique(0, |procs|);
    assert st.job + st.ready == st.job;
    forall i | 0 <= i < |procs| ensures i in st.job {
      assert st.job[i] == i;
    }
  }

  lemma AdmitKeepsQueues(st: State)
    requires WellFormed(st) && QueueInv(st)
    ensures QueueInv(AdmitArrivals(st))
  {
    var a := AdmitArrivals(st);
    AdmissionSplitsPool(st.procs, st.job, st.time);
    assert multiset(a.job + a.ready) == multiset(st.job + st.ready);
    UniqueCounts(st.job + st.ready);
    UniqueCounts(a.job + a.ready);
    forall i | 0 <= i < |a.procs| && i !in a.job && i !in a.ready
      ensures i !in st.job && i !in st.ready
    {
      AbsentFromBoth(a.job, a.ready, i);
      AbsentFromBoth(st.job, st.ready, i);
    }
  }

  lemma AdmitKeepsClock(st: State)
    requires WellFormed(st) && ClockInv(st)
    ensures ClockInv(AdmitArrivals(st))
  {
    var a := AdmitArrivals(st);
    var arrived := Arrived(st.procs, st.job, st.time);
    assert a.ready == st.ready + arrived;
    if st.time != EndOf(st.gantt, 0) {
      forall k | 0 <= k < |arrived| ensures a.procs[arrived[k]].arrival == a.time {
        ArrivedMembers(st.procs, st.job, st.time, arrived[k]);
        var j :| 0 <= j < |st.job| && st.job[j] == arrived[k];
      }
    }
  }

  lemma AdmitKeepsInv(st: State, quantum: int)
    requires Inv(st, quantum)
    ensures Inv(AdmitArrivals(st), quantum)
  {
    AdmitKeepsQueues(st);
    AdmitKeepsClock(st);
  }

  lemma IdleKeepsInv(a: State, quantum: int)
    requires Inv(a, quantum) && a.ready == []
    requires forall k :: 0 <= k < |a.job| ==> a.procs[a.job[k]].arrival > a.time
    ensures Inv(IdleTick(a), quantum)
  {
  }

  /** A dispatch appends one block that keeps the timeline, and changes only its process's last end. */
  lemma DispatchKeepsTimeline(a: State, quantum: int)
    requires quantum > 0 && WellFormed(a) && a.ready != []
    requires Timeline(a.procs, a.gantt, quantum, a.time)
    requires a.procs[a.ready[0]].arrival <= a.time
    ensures var r := Dispatch(a, quantum);
      && Timeline(r.procs, r.gantt, quantum, r.time)
      && (forall i: nat :: i != a.ready[0] ==> LastEnd(r.gantt, i) == LastEnd(a.gantt, i))
      && LastEnd(r.gantt, a.ready[0]) == Some(r.time)
      && r.time == EndOf(r.gantt, 0)
  {
    DispatchSlice(a, quantum);
    SliceKeepsTimeline(a, Dispatch(a, quantum), quantum);
  }

  /** Any state that is `a` after the head's slice keeps the timeline. */
  lemma SliceKeepsTimeline(a: State, r: State, quantum: int)
    requires quantum > 0 && WellFormed(a) && a.ready != []
    requires Timeline(a.procs, a.gantt, quantum, a.time)
    requires a.procs[a.ready[0]].arrival <= a.time
    requires var h := a.ready[0];
      var slice := SliceLength(quantum, a.procs[h].remaining);
      && r.procs == a.procs[h := AfterSlice(a.procs[h], slice, a.time + slice)]
      && r.gantt == a.gantt + [Block(h, a.procs[h].name, a.time, a.time + slice)]
      && r.time == a.time + slice
    ensures Timeline(r.procs, r.gantt, quantum, r.time)
    ensures forall i: nat :: i != a.ready[0] ==> LastEnd(r.gantt, i) == LastEnd(a.gantt, i)
    ensures LastEnd(r.gantt, a.ready[0]) == Some(r.time)
    ensures r.time == EndOf(r.gantt, 0)
  {
    var h := a.ready[0];
    var slice := SliceLength(quantum, a.procs[h].remaining);
    AppendSlice(a.procs, a.gantt, quantum, a.time, h, slice, AfterSlice(a.procs[h], slice, a.time + slice));
  }

  /** What a dispatch does to the processes, the clock and the log. */
  lemma DispatchSlice(a: State, quantum: int)
    requires quantum > 0 && WellFormed(a) && a.ready != []
    ensures var h := a.ready[0];
      var slice := SliceLength(quantum, a.procs[h].remaining);
      var r := Dispatch(a, quantum);
      && r.procs == a.procs[h := AfterSlice(a.procs[h], slice, a.time + slice)]
      && r.gantt == a.gantt + [Block(h, a.procs[h].name, a.time, a.time + slice)]
      && r.time == a.time + slice
  {
  }

  /** The new block starts at the end of the log or at its process's arrival. */
  lemma DispatchKeepsIdleRule(a: State, quantum: int)
    requires quantum > 0 && WellFormed(a) && a.ready != []
    requires IdleOnlyUntilArrival(a.gantt, a.procs, 0)
    requires a.time == EndOf(a.gantt, 0) || a.procs[a.ready[0]].arrival == a.time
    ensures var r := Dispatch(a, quantum); IdleOnlyUntilArrival(r.gantt, r.procs, 0)
  {
    var r := Dispatch(a, quantum);
    var h := a.ready[0];
    assert |r.gantt| == |a.gantt| + 1 && r.gantt[..|a.gantt|] == a.gantt;
    assert r.gantt[|a.gantt|].start == a.time && r.gantt[|a.gantt|].pid == h;
    forall k | 0 <= k < |r.gantt|
      ensures r.gantt[k].start == EndOf(r.gantt[..k], 0)
           || (r.gantt[k].pid < |r.procs| && r.gantt[k].start == r.procs[r.gantt[k].pid].arrival)
    {
      if k < |a.gantt| {
        assert r.gantt[..k] == a.gantt[..k] && r.gantt[k] == a.gantt[k];
      }
    }
  }

  /** After a dispatch every queued process has arrived. */
  lemma DispatchKeepsArrivals(a: State, quantum: int)
    requires quantum > 0 && WellFormed(a) && a.ready != []
    requires forall k :: 0 <= k < |a.ready| ==> a.procs[a.ready[k]].arrival <= a.time
    ensures var r := Dispatch(a, quantum);
      forall k :: 0 <= k < |r.ready| ==> r.procs[r.ready[k]].arrival <= r.time
  {
    var r := Dispatch(a, quantum);
    var h := a.ready[0];
    var arrived := Arrived(a.procs, a.job, r.time);
    forall k | 0 <= k < |r.ready| ensures r.procs[r.ready[k]].arrival <= r.time {
      if k < |a.ready| - 1 {
        assert r.ready[k] == a.ready[k + 1];
      } else if k < |a.ready| - 1 + |arrived| {
        assert r.ready[k] == arrived[k - (|a.ready| - 1)];
      } else {
        assert r.ready[k] == h;
      }
    }
  }

  /** Re-arranging the queues around one dispatch, at the level of multisets. */
  lemma RequeueMultiset(job: seq<nat>, ready: seq<nat>, arrived: seq<nat>, pending: seq<nat>, back: seq<nat>)
    requires ready != []
    requires multiset(arrived) + multiset(pending) == multiset(job)
    ensures multiset(pending + (ready[1..] + arrived + back))
         == multiset(job + ready) - multiset{ready[0]} + multiset(back)
  {
    assert ready == [ready[0]] + ready[1..];
    assert multiset(job + ready) == multiset(job) + multiset{ready[0]} + multiset(ready[1..]);
  }

  /** A dispatch takes the head out of the queues and puts it back unless it finished. */
  lemma DispatchQueueContents(a: State, quantum: int)
    requires quantum > 0 && WellFormed(a) && a.ready != []
    ensures var r := Dispatch(a, quantum);
      multiset(r.job + r.ready) == multiset(a.job + a.ready) - multiset{a.ready[0]}
        + (if r.procs[a.ready[0]].remaining > 0 then multiset{a.ready[0]} else multiset{})
  {
    var r := Dispatch(a, quantum);
    var h := a.ready[0];
    var arrived := Arrived(a.procs, a.job, r.time);
    var pending := Pending(a.procs, a.job, r.time);
    AdmissionSplitsPool(a.procs, a.job, r.time);
    var back := if r.procs[h].remaining > 0 then [h] else [];
    assert r.job + r.ready == pending + (a.ready[1..] + arrived + back);
    RequeueMultiset(a.job, a.ready, arrived, pending, back);
  }

  /** The partition into pool, queue and finished survives a dispatch. */
  lemma DispatchKeepsQueues(a: State, quantum: int)
    requires quantum > 0 && WellFormed(a) && a.ready != [] && QueueInv(a)
    requires var r := Dispatch(a, quantum);
      && (forall i: nat :: i != a.ready[0] ==> LastEnd(r.gantt, i) == LastEnd(a.gantt, i))
      && LastEnd(r.gantt, a.ready[0]) == Some(r.time)
    ensures QueueInv(Dispatch(a, quantum))
  {
    DispatchQueueContents(a, quantum);
    DispatchHead(a, quantum);
    RequeueKeepsQueues(a, Dispatch(a, quantum));
  }

  /** A dispatch changes only the head's process, and counts it as completed when nothing remains. */
  lemma DispatchHead(a: State, quantum: int)
    requires quantum > 0 && WellFormed(a) && a.ready != []
    ensures var h, r := a.ready[0], Dispatch(a, quantum);
      && |r.procs| == |a.procs|
      && (forall i :: 0 <= i < |a.procs| && i != h ==> r.procs[i] == a.procs[i])
      && (r.procs[h].remaining <= 0 ==> r.procs[h].completion == r.time && MetricsConsistent(r.procs[h]))
      && r.completed == (if r.procs[h].remaining > 0 then a.completed else a.completed + 1)
  {
  }

  /**
    Any state `r` that takes the head of `a` out of the queues, puts it back
    only if burst remains and otherwise counts and records it as finished,
    keeps the partition into pool, queue and finished.
   */
  lemma RequeueKeepsQueues(a: State, r: State)
    requires WellFormed(a) && a.ready != [] && QueueInv(a) && WellFormed(r)
    requires var h := a.ready[0];
      && |r.procs| == |a.procs|
      && multiset(r.job + r.ready) == multiset(a.job + a.ready) - multiset{h}
           + (if r.procs[h].remaining > 0 then multiset{h} else multiset{})
      && (forall i :: 0 <= i < |a.procs| && i != h ==> r.procs[i] == a.procs[i])
      && (r.procs[h].remaining <= 0 ==> r.procs[h].completion == r.time && MetricsConsistent(r.procs[h]))
      && r.completed == (if r.procs[h].remaining > 0 then a.completed else a.completed + 1)
      && (forall i: nat :: i != h ==> LastEnd(r.gantt, i) == LastEnd(a.gantt, i))
      && LastEnd(r.gantt, h) == Some(r.time)
    ensures QueueInv(r)
  {
    var h := a.ready[0];
    var old_ms, new_ms := multiset(a.job + a.ready), multiset(r.job + r.ready);
    UniqueCounts(a.job + a.ready);
    UniqueCounts(r.job + r.ready);
    assert h in old_ms;
    assert |new_ms| == |r.job| + |r.ready| && |old_ms| == |a.job| + |a.ready|;
    forall i: nat | i != h && i !in r.job && i !in r.ready
      ensures i !in a.job && i !in a.ready
    {
      AbsentFromBoth(r.job, r.ready, i);
      AbsentFromBoth(a.job, a.ready, i);
    }
    forall i | 0 <= i < |r.procs| && i !in r.job && i !in r.ready
      ensures Finished(r.procs, r.gantt, i) && MetricsConsistent(r.procs[i])
    {
      if i != h {
        assert r.procs[i] == a.procs[i];
      } else {
        AbsentFromBoth(r.job, r.ready, i);
        assert r.procs[h].remaining <= 0;
      }
    }
  }

  lemma DispatchKeepsInv(a: State, quantum: int)
    requires quantum > 0 && Inv(a, quantum) && a.ready != []
    ensures Inv(Dispatch(a, quantum), quantum)
  {
    DispatchKeepsTimeline(a, quantum);
    DispatchKeepsIdleRule(a, quantum);
    DispatchKeepsArrivals(a, quantum);
    DispatchKeepsQueues(a, quantum);
  }

  /** The loop keeps the invariant and stops only with every process finished. */
  lemma {:induction false} RunKeepsInv(st: State, quantum: int)
    requires quantum > 0 && Inv(st, quantum)
    ensures Inv(Run(st, quantum), quantum)
    ensures Run(st, quantum).job == [] && Run(st, quantum).ready == []
    decreases Progress(st), MaxArrival(st.procs) - st.time, 1
  {
    RunSteps(st, quantum);
    if st.completed < |st.procs| {
      var a := AdmitArrivals(st);
      AdmitKeepsInv(st, quantum);
      if a.ready != [] {
        DispatchCase(st, quantum);
      } else if a.job != [] {
        IdleCase(st, quantum);
      }
    }
  }

  /** The loop keeps the invariant when the turn dispatches. */
  lemma {:induction false} DispatchCase(st: State, quantum: int)
    requires quantum > 0 && Inv(st, quantum) && st.completed < |st.procs|
    requires AdmitArrivals(st).ready != []
    ensures Inv(Run(st, quantum), quantum)
    ensures Run(st, quantum).job == [] && Run(st, quantum).ready == []
    decreases Progress(st), MaxArrival(st.procs) - st.time, 0
  {
    RunSteps(st, quantum);
    var a := AdmitArrivals(st);
    AdmitKeepsInv(st, quantum);
    DispatchKeepsInv(a, quantum);
    RunKeepsInv(Dispatch(a, quantum), quantum);
  }

  /** The loop keeps the invariant when the turn idles. */
  lemma {:induction false} IdleCase(st: State, quantum: int)
    requires quantum > 0 && Inv(st, quantum) && st.completed < |st.procs|
    requires AdmitArrivals(st).ready == [] && AdmitArrivals(st).job != []
    ensures Inv(Run(st, quantum), quantum)
    ensures Run(st, quantum).job == [] && Run(st, quantum).ready == []
    decreases Progress(st), MaxArrival(st.procs) - st.time, 0
  {
    RunSteps(st, quantum);
    var a := AdmitArrivals(st);
    AdmitKeepsInv(st, quantum);
    assert a.procs[a.job[0]].arrival > a.time;
    IdleKeepsInv(a, quantum);
    RunKeepsInv(IdleTick(a), quantum);
  }

  /** One turn of the main loop, unfolded. */
  lemma RunSteps(st: State, quantum: int)
    requires quantum > 0 && WellFormed(st)
    ensures st.completed >= |st.procs| ==> Run(st, quantum) == st
    ensures var a := AdmitArrivals(st);
      && (st.completed < |st.procs| && a.ready != [] ==> Run(st, quantum) == Run(Dispatch(a, quantum), quantum))
      && (st.completed < |st.procs| && a.ready == [] && a.job != [] ==> Run(st, quantum) == Run(IdleTick(a), quantum))
      && (st.completed < |st.procs| && a.ready == [] && a.job == [] ==> Run(st, quantum) == a)
    ensures st.completed < |st.procs| ==> Progress(AdmitArrivals(st)) == Progress(st) >= 0
  {
    TotalRemainingNonNegative(st.procs);
  }

  // ---------------------------------------------------------------------
  // Round-robin discipline of the log

  /** Only a process's last block may be shorter than a quantum: every earlier one is a full quantum. */
  ghost predicate OnlyLastShort(g: seq<Block>, quantum: int) {
    forall j, k :: 0 <= j < k < |g| && g[j].pid == g[k].pid ==> Length(g[j]) == quantum
  }

  /** The processor is idle just before block `k`: it starts after the previous block ended. */
  ghost predicate IdleBefore(g: seq<Block>, k: nat)
    requires k < |g|
  {
    g[k].start > EndOf(g[..k], 0)
  }

  /**
    The processor never idles while a process waits: when it is idle before a
    block, every process that runs from that block on arrives no earlier than
    the block starts.
   */
  ghost predicate NoIdleWhileWaiting(g: seq<Block>, procs: seq<Proc>) {
    forall k, j :: 0 <= k <= j < |g| && IdleBefore(g, k) ==>
      g[j].pid < |procs| && procs[g[j].pid].arrival >= g[k].start
  }

  /** `x` still has to run: it is in the job pool or in the ready queue. */
  ghost predicate Waiting(st: State, x: nat) {
    x in st.job || x in st.ready
  }

  /** A block shorter than a quantum belongs to a process that no longer waits. */
  ghost predicate ShortBlocksDone(st: State, quantum: int) {
    forall k :: 0 <= k < |st.gantt| && Length(st.gantt[k]) != quantum ==> !Waiting(st, st.gantt[k].pid)
  }

  /** No waiting process arrived before an idle stretch of the log ended. */
  ghost predicate LateWaiters(st: State) {
    forall k: nat, x: nat :: k < |st.gantt| && IdleBefore(st.gantt, k) && Waiting(st, x) ==>
      x < |st.procs| && st.procs[x].arrival >= st.gantt[k].start
  }

  /**
    A block is empty only when its process has no burst at all: a process is
    dispatched again only while burst remains.
   */
  ghost predicate EmptyOnlyWithoutBurst(g: seq<Block>, procs: seq<Proc>) {
    forall k :: 0 <= k < |g| && Length(g[k]) == 0 ==> g[k].pid < |procs| && procs[g[k].pid].burst == 0
  }

  /**
    The shape of a round-robin log: only a process's last block may be short,
    the processor never idles while a process waits, and only a process
    without burst gets an empty block.
   */
  ghost predicate RoundRobinLog(g: seq<Block>, procs: seq<Proc>, quantum: int) {
    && OnlyLastShort(g, quantum)
    && NoIdleWhileWaiting(g, procs)
    && EmptyOnlyWithoutBurst(g, procs)
  }

  /** A waiting process either still has burst left or has not run at all. */
  ghost predicate WaitersHaveWork(st: State) {
    forall x: nat :: Waiting(st, x) ==>
      x < |st.procs| && (st.procs[x].remaining > 0 || st.procs[x].remaining == st.procs[x].burst)
  }

  /** The round-robin part of the loop invariant. */
  ghost predicate FairInv(st: State, quantum: int) {
    && OnlyLastShort(st.gantt, quantum)
    && ShortBlocksDone(st, quantum)
    && NoIdleWhileWaiting(st.gantt, st.procs)
    && LateWaiters(st)
    && EmptyOnlyWithoutBurst(st.gantt, st.procs)
    && WaitersHaveWork(st)
  }

  lemma WaitingInQueues(st: State, x: nat)
    ensures Waiting(st, x) <==> x in multiset(st.job + st.ready)
  {
    assert x in st.job + st.ready <==> x in multiset(st.job + st.ready);
  }

  /** Any state with the same log, processes and waiting processes keeps the invariant. */
  lemma FairInvSameWaiting(st: State, r: State, quantum: int)
    requires FairInv(st, quantum)
    requires r.gantt == st.gantt && r.procs == st.procs
    requires forall x: nat :: Waiting(r, x) <==> Waiting(st, x)
    ensures FairInv(r, quantum)
  {
    assert ShortBlocksDone(r, quantum);
    assert LateWaiters(r);
    assert WaitersHaveWork(r);
  }

  /** Before the loop nothing has run, so every process is as fresh as it was built. */
  lemma StartFair(procs: seq<Proc>, quantum: int)
    requires forall i :: 0 <= i < |procs| ==> procs[i].remaining == procs[i].burst
    ensures FairInv(Start(procs), quantum)
  {
    var st := Start(procs);
    assert st.gantt == [] && st.ready == [];
    forall x: nat | Waiting(st, x)
      ensures x < |st.procs| && st.procs[x].remaining == st.procs[x].burst
    {
      var k :| 0 <= k < |st.job| && st.job[k] == x;
    }
    assert WaitersHaveWork(st);
  }

  /** Admission only moves processes between pool and queue, so it keeps the invariant. */
  lemma AdmitKeepsFair(st: State, quantum: int)
    requires WellFormed(st) && FairInv(st, quantum)
    ensures FairInv(AdmitArrivals(st), quantum)
  {
    var a := AdmitArrivals(st);
    AdmitArrivalsMoves(st);
    forall x: nat ensures Waiting(a, x) <==> Waiting(st, x) {
      WaitingInQueues(a, x);
      WaitingInQueues(st, x);
    }
    FairInvSameWaiting(st, a, quantum);
  }

  /**
    After a dispatch only processes that waited before still wait, and the
    process that ran waits only if burst remains.
   */
  lemma DispatchWaiting(a: State, quantum: int)
    requires quantum > 0 && WellFormed(a) && a.ready != [] && Unique(a.job + a.ready)
    ensures var r := Dispatch(a, quantum);
      && (forall x: nat :: Waiting(r, x) ==> Waiting(a, x))
      && (Waiting(r, a.ready[0]) ==> r.procs[a.ready[0]].remaining > 0)
  {
    var r := Dispatch(a, quantum);
    var h := a.ready[0];
    DispatchQueueContents(a, quantum);
    UniqueCounts(a.job + a.ready);
    assert h in multiset(a.job + a.ready);
    forall x: nat ensures Waiting(r, x) ==> Waiting(a, x) {
      WaitingInQueues(r, x);
      WaitingInQueues(a, x);
    }
    WaitingInQueues(r, h);
  }

  /** While the clock is past the end of the log, every waiting process arrives at or after the clock. */
  lemma IdleArrivals(a: State, quantum: int)
    requires Inv(a, quantum) && a.time != EndOf(a.gantt, 0)
    ensures forall x: nat :: Waiting(a, x) ==> x < |a.procs| && a.procs[x].arrival >= a.time
  {
    forall x: nat | Waiting(a, x) ensures x < |a.procs| && a.procs[x].arrival >= a.time {
      if x in a.job {
        var k :| 0 <= k < |a.job| && a.job[k] == x;
      } else {
        var k :| 0 <= k < |a.ready| && a.ready[k] == x;
      }
    }
  }

  /** Appending a block: idleness before the old blocks does not change. */
  lemma IdleBeforeAppend(g: seq<Block>, b: Block)
    ensures forall k: nat :: k < |g| ==> (IdleBefore(g + [b], k) <==> IdleBefore(g, k))
    ensures IdleBefore(g + [b], |g|) <==> b.start > EndOf(g, 0)
  {
    forall k: nat | k < |g| ensures (g + [b])[..k] == g[..k] && (g + [b])[k] == g[k] {
    }
    assert (g + [b])[..|g|] == g;
  }

  /** Appending a block of a waiting process `h` keeps the first half of the invariant. */
  lemma FullSlicesStep(a: State, r: State, b: Block, quantum: int)
    requires OnlyLastShort(a.gantt, quantum) && ShortBlocksDone(a, quantum)
    requires r.gantt == a.gantt + [b] && Waiting(a, b.pid)
    requires forall x: nat :: Waiting(r, x) ==> Waiting(a, x)
    requires Length(b) != quantum ==> !Waiting(r, b.pid)
    ensures OnlyLastShort(r.gantt, quantum) && ShortBlocksDone(r, quantum)
  {
    var n := |a.gantt|;
    forall j, k | 0 <= j < k < |r.gantt| && r.gantt[j].pid == r.gantt[k].pid
      ensures Length(r.gantt[j]) == quantum
    {
      assert r.gantt[j] == a.gantt[j];
      if k < n {
        assert r.gantt[k] == a.gantt[k];
      }
    }
    forall k | 0 <= k < |r.gantt| && Length(r.gantt[k]) != quantum
      ensures !Waiting(r, r.gantt[k].pid)
    {
      if k < n {
        assert r.gantt[k] == a.gantt[k];
      }
    }
  }

  /** Appending a block of a waiting process keeps the processor's idle stretches honest. */
  lemma NoIdleStep(a: State, r: State, b: Block)
    requires WellFormed(a) && NoIdleWhileWaiting(a.gantt, a.procs) && LateWaiters(a)
    requires r.gantt == a.gantt + [b] && Waiting(a, b.pid)
    requires |r.procs| == |a.procs| && forall i :: 0 <= i < |a.procs| ==> r.procs[i].arrival == a.procs[i].arrival
    requires forall x: nat :: Waiting(r, x) ==> Waiting(a, x)
    requires b.start > EndOf(a.gantt, 0) ==>
      forall x: nat :: Waiting(a, x) ==> x < |a.procs| && a.procs[x].arrival >= b.start
    ensures NoIdleWhileWaiting(r.gantt, r.procs) && LateWaiters(r)
  {
    var n := |a.gantt|;
    IdleBeforeAppend(a.gantt, b);
    assert b.pid < |a.procs| by {
      if b.pid in a.job {
        var m :| 0 <= m < |a.job| && a.job[m] == b.pid;
      } else {
        var m :| 0 <= m < |a.ready| && a.ready[m] == b.pid;
      }
    }
    forall k, j | 0 <= k <= j < |r.gantt| && IdleBefore(r.gantt, k)
      ensures r.gantt[j].pid < |r.procs| && r.procs[r.gantt[j].pid].arrival >= r.gantt[k].start
    {
      if j < n {
        assert r.gantt[j] == a.gantt[j] && r.gantt[k] == a.gantt[k];
      } else if k < n {
        assert r.gantt[k] == a.gantt[k];
      }
    }
    forall k: nat, x: nat | k < |r.gantt| && IdleBefore(r.gantt, k) && Waiting(r, x)
      ensures x < |r.procs| && r.procs[x].arrival >= r.gantt[k].start
    {
      if k < n {
        assert r.gantt[k] == a.gantt[k];
      }
    }
  }

  /** Appending a block of a waiting process keeps empty blocks to processes without burst. */
  lemma EmptyStep(a: State, r: State, b: Block)
    requires EmptyOnlyWithoutBurst(a.gantt, a.procs) && WaitersHaveWork(a)
    requires r.gantt == a.gantt + [b] && Waiting(a, b.pid)
    requires |r.procs| == |a.procs| && forall i :: 0 <= i < |a.procs| ==> r.procs[i].burst == a.procs[i].burst
    requires forall i :: 0 <= i < |a.procs| && i != b.pid ==> r.procs[i] == a.procs[i]
    requires Length(b) == 0 ==> b.pid < |a.procs| && a.procs[b.pid].remaining == 0
    requires forall x: nat :: Waiting(r, x) ==> Waiting(a, x)
    requires Waiting(r, b.pid) ==> b.pid < |r.procs| && r.procs[b.pid].remaining > 0
    ensures EmptyOnlyWithoutBurst(r.gantt, r.procs) && WaitersHaveWork(r)
  {
    var n := |a.gantt|;
    forall k | 0 <= k < |r.gantt| && Length(r.gantt[k]) == 0
      ensures r.gantt[k].pid < |r.procs| && r.procs[r.gantt[k].pid].burst == 0
    {
      if k < n {
        assert r.gantt[k] == a.gantt[k];
      }
    }
  }

  lemma DispatchKeepsFair(a: State, quantum: int)
    requires quantum > 0 && Inv(a, quantum) && FairInv(a, quantum) && a.ready != []
    ensures FairInv(Dispatch(a, quantum), quantum)
  {
    DispatchKeepsSlices(a, quantum);
    DispatchKeepsEmpty(a, quantum);
  }

  /** A dispatch keeps the full-slice and no-idling parts of the invariant. */
  lemma DispatchKeepsSlices(a: State, quantum: int)
    requires quantum > 0 && Inv(a, quantum) && FairInv(a, quantum) && a.ready != []
    ensures var r := Dispatch(a, quantum);
      && OnlyLastShort(r.gantt, quantum) && ShortBlocksDone(r, quantum)
      && NoIdleWhileWaiting(r.gantt, r.procs) && LateWaiters(r)
  {
    var r := Dispatch(a, quantum);
    var h := a.ready[0];
    var slice := SliceLength(quantum, a.procs[h].remaining);
    var b := Block(h, a.procs[h].name, a.time, a.time + slice);
    DispatchSlice(a, quantum);
    DispatchWaiting(a, quantum);
    assert Waiting(a, h);
    FullSlicesStep(a, r, b, quantum);
    if a.time != EndOf(a.gantt, 0) {
      IdleArrivals(a, quantum);
    }
    NoIdleStep(a, r, b);
  }

  /** A dispatch writes an empty block only for a process without burst. */
  lemma DispatchKeepsEmpty(a: State, quantum: int)
    requires quantum > 0 && WellFormed(a) && a.ready != [] && Unique(a.job + a.ready)
    requires EmptyOnlyWithoutBurst(a.gantt, a.procs) && WaitersHaveWork(a)
    ensures var r := Dispatch(a, quantum);
      EmptyOnlyWithoutBurst(r.gantt, r.procs) && WaitersHaveWork(r)
  {
    var r := Dispatch(a, quantum);
    var h := a.ready[0];
    var slice := SliceLength(quantum, a.procs[h].remaining);
    var b := Block(h, a.procs[h].name, a.time, a.time + slice);
    DispatchSlice(a, quantum);
    DispatchWaiting(a, quantum);
    assert Waiting(a, h);
    EmptyStep(a, r, b);
  }

  /** The loop keeps the round-robin invariant. */
  lemma {:induction false} RunKeepsFair(st: State, quantum: int)
    requires quantum > 0 && Inv(st, quantum) && FairInv(st, quantum)
    ensures FairInv(Run(st, quantum), quantum)
    decreases Progress(st), MaxArrival(st.procs) - st.time, 1
  {
    RunSteps(st, quantum);
    if st.completed < |st.procs| {
      var a := AdmitArrivals(st);
      AdmitKeepsInv(st, quantum);
      AdmitKeepsFair(st, quantum);
      if a.ready != [] {
        FairDispatchCase(st, quantum);
      } else if a.job != [] {
        FairIdleCase(st, quantum);
      }
    }
  }

  lemma {:induction false} FairDispatchCase(st: State, quantum: int)
    requires quantum > 0 && Inv(st, quantum) && FairInv(st, quantum) && st.completed < |st.procs|
    requires AdmitArrivals(st).ready != []
    ensures FairInv(Run(st, quantum), quantum)
    decreases Progress(st), MaxArrival(st.procs) - st.time, 0
  {
    RunSteps(st, quantum);
    var a := AdmitArrivals(st);
    AdmitKeepsInv(st, quantum);
    AdmitKeepsFair(st, quantum);
    DispatchKeepsInv(a, quantum);
    DispatchKeepsFair(a, quantum);
    RunKeepsFair(Dispatch(a, quantum), quantum);
  }

  lemma {:induction false} FairIdleCase(st: State, quantum: int)
    requires quantum > 0 && Inv(st, quantum) && FairInv(st, quantum) && st.completed < |st.procs|
    requires AdmitArrivals(st).ready == [] && AdmitArrivals(st).job != []
    ensures FairInv(Run(st, quantum), quantum)
    decreases Progress(st), MaxArrival(st.procs) - st.time, 0
  {
    RunSteps(st, quantum);
    var a := AdmitArrivals(st);
    AdmitKeepsInv(st, quantum);
    AdmitKeepsFair(st, quantum);
    assert a.procs[a.job[0]].arrival > a.time;
    IdleKeepsInv(a, quantum);
    FairInvSameWaiting(a, IdleTick(a), quantum);
    RunKeepsFair(IdleTick(a), quantum);
  }

  /**
    The loop, started on fresh processes, runs round robin: every block of a
    process except its last is a full quantum, the processor never idles
    while a process that has arrived waits, and a block is empty only for a
    process without burst.
   */
  lemma RunIsRoundRobin(procs: seq<Proc>, quantum: int)
    requires quantum > 0
    requires forall i :: 0 <= i < |procs| ==> procs[i].remaining == procs[i].burst >= 0
    ensures var f := Run(Start(procs), quantum);
      RoundRobinLog(f.gantt, f.procs, quantum)
  {
    StartInv(procs, quantum);
    StartFair(procs, quantum);
    RunKeepsFair(Start(procs), quantum);
  }

  /**
    In a complete round-robin log an empty block is its process's only block:
    a later block would make it a full quantum, and an earlier full quantum
    would exceed the burst of 0.
   */
  lemma EmptyBlockAlone(procs: seq<Proc>, g: seq<Block>, quantum: int, k: nat)
    requires quantum > 0 && Complete(procs, g, quantum) && RoundRobinLog(g, procs, quantum)
    requires k < |g| && Length(g[k]) == 0
    ensures forall j :: 0 <= j < |g| && j != k ==> g[j].pid != g[k].pid
  {
    var i := g[k].pid;
    forall j | 0 <= j < |g| && j != k ensures g[j].pid != i {
      if g[j].pid == i && j < k {
        SliceTotalCovers(g, i, j);
        assert false;
      }
    }
  }

  // ---------------------------------------------------------------------
  // What a run promises

  /**
    The queues after one dispatch, in the order App.java builds them: those
    already waiting keep their places, then the processes that arrived by the
    end of the slice leave the pool and queue up in pool order, and only then
    does the preempted process rejoin, at the very tail.
   */
  lemma DispatchOrder(st: State, quantum: int)
    requires quantum > 0 && WellFormed(st) && st.ready != []
    ensures var h := st.ready[0];
      var r := Dispatch(st, quantum);
      var w := |st.ready| - 1;
      var back := if r.procs[h].remaining > 0 then 1 else 0;
      && w + back <= |r.ready|
      && r.ready[..w] == st.ready[1..]
      && r.ready[w .. |r.ready| - back] == Arrived(st.procs, st.job, r.time)
      && r.job == Pending(st.procs, st.job, r.time)
      && (forall x :: x in st.job ==> (x in r.job <==> st.procs[x].arrival > r.time))
      && (forall x :: x in st.job && st.procs[x].arrival <= r.time ==> x in r.ready[w .. |r.ready| - back])
      && (back == 1 ==> r.ready[|r.ready| - 1] == h)
  {
    var h := st.ready[0];
    var r := Dispatch(st, quantum);
    var back := if r.procs[h].remaining > 0 then 1 else 0;
    var arrived := Arrived(st.procs, st.job, r.time);
    assert r.ready[|st.ready| - 1 .. |r.ready| - back] == arrived;
    forall x | x in st.job
      ensures x in r.job <==> st.procs[x].arrival > r.time
      ensures st.procs[x].arrival <= r.time ==> x in arrived
    {
      ArrivedMembers(st.procs, st.job, r.time, x);
    }
  }

  /** The loop, started on fresh processes, ends with a complete schedule. */
  lemma RunCompletes(procs: seq<Proc>, quantum: int)
    requires quantum > 0
    requires forall i :: 0 <= i < |procs| ==> procs[i].remaining == procs[i].burst >= 0
    ensures var f := Run(Start(procs), quantum);
      SameIdentities(procs, f.procs) && Complete(f.procs, f.gantt, quantum)
  {
    StartInv(procs, quantum);
    RunKeepsInv(Start(procs), quantum);
    var f := Run(Start(procs), quantum);
    forall i | 0 <= i < |f.procs| ensures f.procs[i].waiting >= 0 {
      assert i !in f.job && i !in f.ready;
      WaitingNonNegative(f.procs, f.gantt, quantum, f.time, i);
    }
  }

  /**
    What a standard run promises: the result lists the working copies; every
    process has run exactly its burst, in blocks that never overlap, start no
    earlier than its arrival and are at most one quantum long; it completes at
    the end of its last block, with turnaround and waiting time derived from
    that, and it never waits a negative time. Every block of a process except
    its last is a full quantum, and only a process without burst gets an empty
    block. The processor idles only until the next arrival, and never while a
    process that has arrived waits. The averages are
    the means of the metrics, and an empty input gives an empty result.
   */
  lemma StandardRoundRobinCorrect(ps: seq<Proc>, quantum: int)
    requires quantum > 0
    requires forall i :: 0 <= i < |ps| ==> ps[i].burst >= 0
    ensures var r := StandardRoundRobin(ps, quantum);
      && SameIdentities(Initial(ps), r.procs)
      && Complete(r.procs, r.gantt, quantum)
      && RoundRobinLog(r.gantt, r.procs, quantum)
      && 0.0 <= r.awt && 0.0 <= r.atat
      && |r.procs| == |ps|
      && IsMean(r.awt, Waitings(r.procs)) && IsMean(r.atat, Turnarounds(r.procs))
      && (|ps| == 0 ==> r == SimResult([], [], 0.0, 0.0))
  {
    InitialBurstsNonNegative(ps);
    StandardRunSchedule(ps, quantum);
    var r := StandardRoundRobin(ps, quantum);
    AveragesOfComplete(r.procs, r.gantt, quantum);
    AveragesAreMeans(r.procs);
  }

  /** The schedule half of a standard run: the loop's promises, carried over to the result. */
  lemma StandardRunSchedule(ps: seq<Proc>, quantum: int)
    requires quantum > 0
    requires forall i :: 0 <= i < |ps| ==> ps[i].burst >= 0
    ensures var r := StandardRoundRobin(ps, quantum);
      && SameIdentities(Initial(ps), r.procs)
      && Complete(r.procs, r.gantt, quantum)
      && RoundRobinLog(r.gantt, r.procs, quantum)
      && r.awt == Mean(Waitings(r.procs)) && r.atat == Mean(Turnarounds(r.procs))
  {
    InitialBurstsNonNegative(ps);
    var procs := Initial(ps);
    var f := Run(Start(procs), quantum);
    var r := StandardRoundRobin(ps, quantum);
    assert r.procs == f.procs && r.gantt == f.gantt;
    RunCompletes(procs, quantum);
    RunIsRoundRobin(procs, quantum);
  }
}
