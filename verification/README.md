# Round Robin schedulers, modelled in Dafny

This project models the scheduling core of the process-scheduling simulator
`App.java`. The simulator has two CPU schedulers. Each takes a list of
processes (name, arrival time, burst time) and a time quantum. Each returns
three things:

- the processes with their completion, turnaround and waiting times;
- a Gantt log of execution slices;
- the average waiting time and the average turnaround time.

The two schedulers:

- **Standard Round Robin** (`runStandardRoundRobin`). A job pool holds the
  processes that have not arrived yet. A FIFO ready queue holds the arrived
  ones. Each turn, the head of the queue runs for `min(quantum, remaining)`.
  Processes that arrived during the slice are queued before the preempted
  process goes back to the tail. When nothing is ready, the clock advances by
  idle ticks.
- **Enhanced Round Robin** (`runEnhancedRoundRobin`).
  - First cycle: every process runs exactly once, in arrival order, for
    `min(quantum, remaining)`.
  - Second phase: the processes with burst left are stably sorted by
    remaining burst. Each runs to completion in back-to-back slices of
    `2 * quantum`.
  - Finally every process gets its turnaround and waiting time.

## How the model is organised

- The model is functional. Processes are immutable `Proc` records in a
  sequence. The job pool and the ready queue are sequences of indices into
  that sequence.
- Each loop of the source is a recursive function with an explicit
  termination measure:
  - `StandardRR.Run` uses the lexicographic pair (total remaining burst plus
    unfinished processes, last arrival minus clock);
  - `FirstCycle.Cycle` uses (pool plus queue length, last arrival minus
    clock);
  - `EnhancedRR.Drain` uses the remaining burst.

Files and modules:

| file | module | contents |
|---|---|---|
| `sorting.dfy` | `StableSort` | stable insertion sort; proof that it is ordered, a permutation and stable |
| `process.dfy` | `Processes` | the process record, constructor, `reset`, the working list of a run |
| `metrics.dfy` | `Metrics` | turnaround, waiting, the averages as exact means |
| `gantt.dfy` | `Gantt` | Gantt blocks, the result record, the timeline predicates both schedulers keep |
| `admission.dfy` | `Admission` | moving arrived processes from the job pool to the ready queue |
| `standard.dfy` | `StandardRR` | the standard scheduler and its loop invariant |
| `firstcycle.dfy` | `FirstCycle` | the first cycle of the enhanced scheduler |
| `enhanced.dfy` | `EnhancedRR` | the second phase and the whole enhanced run |
| `scenarios.dfy` | `Scenarios` | worked one-process runs of both schedulers |
| `optional.dfy` | `Optional` | `Option`, for a value that may be absent |

Proof strategy for the first cycle:

- `FirstCycle.FirstPass` is an independent reference: process k starts when
  the processor is free and the process has arrived, and runs
  `min(quantum, remaining)`.
- `FirstCycle.CycleIsFirstPass` proves that the model of the source's loop
  (`FirstCycle.Cycle`), with its job pool, ready queue, idle ticks and
  executed set, computes exactly that reference.

## Model

| member | source | states |
|---|---|---|
| Processes.NewProcess | SO/app/src/main/java/tourismapp/App.java:35-41 | a new process keeps the given name, arrival and burst; its remaining burst is the burst; completion, turnaround and waiting are 0 |
| Processes.Reset | SO/app/src/main/java/tourismapp/App.java:57-62 | reset keeps who the process is and returns it to the initial state |
| Processes.ResetIsNewProcess | SO/app/src/main/java/tourismapp/App.java:57-62 | reset gives exactly what the constructor builds from the same name, arrival and burst, and resetting twice changes nothing more |
| Processes.Copies | SO/app/src/main/java/tourismapp/App.java:72 | there is one fresh copy per input process, in its initial state, with the same identity |
| Processes.Initial | SO/app/src/main/java/tourismapp/App.java:71-74 | the working list: fresh copies sorted by arrival time; its contract is `InitialIsStableSort` |
| Processes.InitialIsStableSort | SO/app/src/main/java/tourismapp/App.java:71-74 | the working list is sorted by arrival, is a permutation of the fresh copies, keeps the input order among equal arrivals, and has every copy in its initial state |
| StableSort.SortByIsStableSort | SO/app/src/main/java/tourismapp/App.java:73 | the sort's output is ordered by the key, is a permutation of the input, and keeps each class of equal keys in input order |
| StableSort.SortByTiesAscending | SO/app/src/main/java/tourismapp/App.java:178 | sorting an increasing list of indices breaks every tie by the smaller index |
| Gantt.SliceLength | SO/app/src/main/java/tourismapp/App.java:100 | a slice is at most the quantum and at most the remaining burst, and equals one of the two |
| Admission.AdmissionSplitsPool | SO/app/src/main/java/tourismapp/App.java:83-90 | a scan of the job pool loses and duplicates nothing: admitted plus still pending is the pool |
| Admission.Arrived | SO/app/src/main/java/tourismapp/App.java:83-90 | the admitted processes are valid indices that have all arrived by the clock; which ones and in what order is stated by `ArrivedMembers` and `ArrivedIsPrefix` |
| Admission.Pending | SO/app/src/main/java/tourismapp/App.java:83-90 | the processes left in the pool are valid indices that have all not arrived by the clock; which ones is stated by `ArrivedMembers`, and that nothing is lost by `AdmissionSplitsPool` |
| Admission.ArrivedMembers | SO/app/src/main/java/tourismapp/App.java:83-90 | exactly the pool processes with arrival at or before the clock are admitted; exactly the others stay in the pool |
| Admission.ArrivedIsPrefix | SO/app/src/main/java/tourismapp/App.java:107-114 | on a pool ordered by arrival, the admitted processes are a prefix of the pool, in pool order |
| Metrics.Finalize | SO/app/src/main/java/tourismapp/App.java:121-122 | turnaround becomes completion minus arrival and waiting becomes turnaround minus the original burst; nothing else changes |
| Metrics.FinalizeAll | SO/app/src/main/java/tourismapp/App.java:192-195 | every process gets those two metrics and keeps its identity, remaining burst and completion |
| Metrics.Mean | SO/app/src/main/java/tourismapp/App.java:126-127 | the average times the count is the sum; an empty list has average 0 |
| Metrics.MeanBounds | SO/app/src/main/java/tourismapp/App.java:126-127 | the average lies between any lower and upper bound of the values |
| Gantt.AveragesOfComplete | SO/app/src/main/java/tourismapp/App.java:197-198 | in a complete schedule both averages are non-negative, and no process means no block |
| StandardRR.AdmitArrivals | SO/app/src/main/java/tourismapp/App.java:83-90 | admission changes only the pool and the queue: the processes, clock, log and completed count stay, and the pool keeps only processes that have not arrived; its full contract is `AdmitArrivalsMoves` |
| StandardRR.AdmitArrivalsMoves | SO/app/src/main/java/tourismapp/App.java:83-90 | admission keeps the ready queue as a prefix and appends only processes that have arrived; what stays in the pool has not arrived; pool plus queue keeps exactly the same processes |
| StandardRR.AfterSlice | SO/app/src/main/java/tourismapp/App.java:103-123 | the remaining burst drops by the slice; a process with burst left changes in nothing else; a process with nothing left completes at the end of the slice, with both metrics recorded, and changes in nothing else |
| StandardRR.Dispatch | SO/app/src/main/java/tourismapp/App.java:98-123 | a turn keeps the indices valid and the identities unchanged, strictly decreases the termination measure, and never moves the clock back |
| StandardRR.DispatchOrder | SO/app/src/main/java/tourismapp/App.java:107-118 | after a slice the waiting processes keep their places, then the new arrivals follow in pool order, and only then does the preempted process rejoin at the tail; the pool keeps exactly those not yet arrived |
| StandardRR.IdleTickShrinks | SO/app/src/main/java/tourismapp/App.java:92-96 | an idle tick, taken only while the next pooled process has not arrived, keeps the progress measure and brings the clock closer to the last arrival |
| StandardRR.IdleTick | SO/app/src/main/java/tourismapp/App.java:92-96 | one idle tick moves only the clock, by one; that it keeps the progress measure and nears the last arrival is stated by `IdleTickShrinks`, and that it keeps the invariant by `IdleKeepsInv` |
| StandardRR.Start | SO/app/src/main/java/tourismapp/App.java:76-80 | the state before the loop: every process in the pool in list order, an empty queue and log, time 0, none completed; that it meets the loop invariants is stated by `StartInv` and `StartFair` |
| StandardRR.Run | SO/app/src/main/java/tourismapp/App.java:82-124 | the loop terminates, keeps every identity, and stops only when everyone completed or both queues are empty |
| StandardRR.RunKeepsInv | SO/app/src/main/java/tourismapp/App.java:82-124 | the loop keeps the invariant: pool, queue and finished set partition the processes; the timeline is valid; queued processes have arrived. It ends with both queues empty |
| StandardRR.RunCompletes | SO/app/src/main/java/tourismapp/App.java:82-124 | started on fresh processes, the loop ends with a complete schedule |
| StandardRR.StandardRoundRobin | SO/app/src/main/java/tourismapp/App.java:70-130 | the scheduler runs the loop on the working list, from an empty queue at time 0, and averages the metrics; its own contract is only its preconditions, and what it returns is stated by `StandardRoundRobinCorrect` |
| StandardRR.RunIsRoundRobin | SO/app/src/main/java/tourismapp/App.java:82-124 | started on fresh processes, the loop gives every process full quantum slices except its last one; the processor idles before a block only if nothing that runs from that block on had arrived before the block starts; a block is empty only if its process has burst 0 |
| StandardRR.StandardRoundRobinCorrect | SO/app/src/main/java/tourismapp/App.java:70-130 | see the note "What a complete schedule means" below, with blocks of at most one quantum; in addition, every block but a process's last is a full quantum, a block is empty only for a process with burst 0, and the processor never idles while an arrived process waits (`StandardRR.RoundRobinLog`) |
| StandardRR.EmptyBlockAlone | SO/app/src/main/java/tourismapp/App.java:98-123 | in a complete round-robin log, an empty block is the only block of its process |
| FirstCycle.Admit | SO/app/src/main/java/tourismapp/App.java:146-153 | admission changes only the pool and the queue, keeps their total length, and leaves in the pool only processes that have not arrived; its full contract is `AdmitMoves` |
| FirstCycle.AdmitMoves | SO/app/src/main/java/tourismapp/App.java:146-153 | admission keeps the ready queue as a prefix and appends only processes that have arrived; what stays in the pool has not arrived; pool plus queue keeps exactly the same processes |
| FirstCycle.Cycle | SO/app/src/main/java/tourismapp/App.java:145-173 | the first loop terminates and keeps every process's identity; what it computes is stated by `CycleIsFirstPass` |
| FirstCycle.FirstSlice | SO/app/src/main/java/tourismapp/App.java:163-172 | the remaining burst drops by the slice; completion is set to the slice's end exactly when nothing is left, otherwise it is unchanged; nothing else about the process changes, turnaround and waiting included |
| FirstCycle.RunOnce | SO/app/src/main/java/tourismapp/App.java:161-168 | running the head once keeps identities and shortens pool plus queue, because the process is not re-queued |
| FirstCycle.Tick | SO/app/src/main/java/tourismapp/App.java:155-159 | one idle tick moves only the clock, by one; it keeps the loop invariant (`TickKeepsCycleInv`), and a tick before the next process arrives leaves the reference pass's result unchanged (`IdleTickKeepsPass`) |
| FirstCycle.StartCycle | SO/app/src/main/java/tourismapp/App.java:139-143 | the state before the first loop: every process in the pool in list order, an empty queue, log and executed set, time 0; it meets the loop invariant by `StartCycleInv`, and `CycleIsFirstPass` starts from it |
| FirstCycle.CycleMatchesPass | SO/app/src/main/java/tourismapp/App.java:145-173 | from any loop state with k processes done, the loop ends where the reference pass from process k ends |
| FirstCycle.CycleIsFirstPass | SO/app/src/main/java/tourismapp/App.java:141-173 | on a list sorted by arrival, the first loop gives each process exactly one slice, in list order, exactly as the reference pass does |
| FirstCycle.FirstPassLog | SO/app/src/main/java/tourismapp/App.java:161-166 | in the reference pass, process i has exactly one block, the i-th; it starts once the previous block has ended and the process has arrived, and lasts `min(quantum, remaining)` |
| FirstCycle.FirstPassProcs | SO/app/src/main/java/tourismapp/App.java:165-172 | after the pass, each process has had exactly the length of its block taken off, and completes at that block's end if nothing is left |
| FirstCycle.FirstPassTimeline | SO/app/src/main/java/tourismapp/App.java:161-172 | the pass keeps the timeline invariant and the clock at the log's end, idles only until an arrival, and settles every process with nothing left |
| EnhancedRR.Unfinished | SO/app/src/main/java/tourismapp/App.java:177 | the filter yields valid indices; that it keeps exactly the processes with burst left is stated by `UnfinishedMembers` |
| EnhancedRR.UnfinishedMembers | SO/app/src/main/java/tourismapp/App.java:177 | the filter keeps exactly the processes with burst left |
| EnhancedRR.Leftovers | SO/app/src/main/java/tourismapp/App.java:176-179 | the second-phase order: the unfinished processes sorted by remaining burst; its contract is `LeftoversSpec` |
| EnhancedRR.LeftoversSpec | SO/app/src/main/java/tourismapp/App.java:176-179 | the second-phase order holds exactly the processes with burst left, each once, sorted by remaining burst, ties in list order |
| EnhancedRR.SecondOrderSpec | SO/app/src/main/java/tourismapp/App.java:175-179 | for an input, the second phase runs exactly the processes whose burst exceeds the quantum, each once, shortest burst first, ties in arrival order |
| EnhancedRR.DrainStep | SO/app/src/main/java/tourismapp/App.java:183-187 | one slice of the inner loop appends one block and keeps the list length; its effect is stated through `DrainKeeps`, `DrainLog` and `DrainNonEmpty` |
| EnhancedRR.Drain | SO/app/src/main/java/tourismapp/App.java:182-188 | the inner loop terminates, with the remaining burst as its measure; it keeps the list length and only grows the log. What it does is stated by `DrainKeeps`, `DrainLog` and `DrainTimeline` |
| EnhancedRR.RunToEnd | SO/app/src/main/java/tourismapp/App.java:182-189 | the inner loop and the completion time: it keeps the list length and only grows the log. What it does is stated by `RunToEndFinishes` |
| EnhancedRR.RunToEndFinishes | SO/app/src/main/java/tourismapp/App.java:182-189 | running a process that arrived and still has burst to the end keeps the phase invariant and the clock monotone; it changes no other process; the process finishes with completion at the end of its last block; no other process's last block moves |
| EnhancedRR.DrainKeeps | SO/app/src/main/java/tourismapp/App.java:182-188 | draining runs a process down to zero remaining burst and touches no other process; it does not change completion and only appends to the log |
| EnhancedRR.DrainLog | SO/app/src/main/java/tourismapp/App.java:182-188 | the drained process's blocks are back to back from the current time; all but the last are full slices; the clock ends at the last block; it gets a block if and only if burst was left |
| EnhancedRR.DrainNonEmpty | SO/app/src/main/java/tourismapp/App.java:182-187 | every block draining appends is non-empty, since a slice runs only while burst remains |
| EnhancedRR.DrainTimeline | SO/app/src/main/java/tourismapp/App.java:182-188 | draining keeps the timeline invariant, and the drained process's last block ends on the clock |
| EnhancedRR.SecondPhase | SO/app/src/main/java/tourismapp/App.java:181-190 | the outer loop over the order keeps the list length and only grows the log; what it does is stated by `SecondPhaseSettles`, `SecondPhaseOrder` and `SecondPhaseSlices` |
| EnhancedRR.SecondPhaseSettles | SO/app/src/main/java/tourismapp/App.java:181-190 | the second phase keeps the timeline and leaves every process finished, with completion at the end of its last block |
| EnhancedRR.SecondPhaseOrder | SO/app/src/main/java/tourismapp/App.java:181-190 | all blocks of an earlier process of the order come before all blocks of a later one, so each process runs in one stretch |
| EnhancedRR.SecondPhaseSlices | SO/app/src/main/java/tourismapp/App.java:182-188 | every second-phase block except each process's last is a full slice of twice the quantum |
| EnhancedRR.SecondPhaseNonEmpty | SO/app/src/main/java/tourismapp/App.java:181-190 | the second phase appends no empty block |
| EnhancedRR.FirstPhase | SO/app/src/main/java/tourismapp/App.java:141-173 | the first phase is the first loop from its start state; `FirstPhaseIsPass` proves it equal to the reference pass on the working list |
| EnhancedRR.SecondOrder | SO/app/src/main/java/tourismapp/App.java:175-179 | the second-phase order for an input; its contract is `SecondOrderSpec` |
| EnhancedRR.BothPhases | SO/app/src/main/java/tourismapp/App.java:141-190 | the first phase, then the second phase over its leftovers with twice the quantum; its contract is `BothPhasesFinish` |
| EnhancedRR.BothPhasesFinish | SO/app/src/main/java/tourismapp/App.java:141-190 | after both phases every process has finished, identities are kept, and the timeline holds with bound twice the quantum |
| EnhancedRR.FinalizedIsComplete | SO/app/src/main/java/tourismapp/App.java:192-195 | recording the metrics of a finished schedule makes it complete, with non-negative waiting |
| EnhancedRR.EnhancedRoundRobin | SO/app/src/main/java/tourismapp/App.java:132-201 | the scheduler: first cycle, second phase, metrics of every process, averages; its own contract is only its preconditions, and what it returns is stated by `EnhancedRoundRobinCorrect`, `EnhancedFirstCycleLog` and `EnhancedSecondPhaseLog` |
| EnhancedRR.EnhancedRoundRobinCorrect | SO/app/src/main/java/tourismapp/App.java:132-201 | see the note "What a complete schedule means" below; blocks are at most twice the quantum |
| EnhancedRR.EnhancedFirstCycleLog | SO/app/src/main/java/tourismapp/App.java:141-173 | the log starts with one block per process in arrival order; block i starts once the processor is free and process i has arrived, and lasts `min(quantum, burst)` |
| EnhancedRR.EnhancedSecondPhaseLog | SO/app/src/main/java/tourismapp/App.java:175-190 | after the first cycle, the log holds only processes of the second order; it never idles, runs them in that order, one stretch each, in full slices of twice the quantum except each process's last, and none of its blocks is empty |
| Scenarios.SingleProcessStandard | SO/app/src/main/java/tourismapp/App.java:70-130 | a process arriving at 0 whose burst fits one quantum runs once, from 0 to its burst, and waits 0; the averages are 0 and the burst |
| Scenarios.SingleProcessEnhanced | SO/app/src/main/java/tourismapp/App.java:132-201 | the same single process under the enhanced scheduler gets the same one block, and the second phase has nothing to run |

### What a complete schedule means

`StandardRoundRobinCorrect` and `EnhancedRoundRobinCorrect` make these
promises about the whole run:

- The result lists the working copies (`SameIdentities` with
  `Processes.Initial`).
- The schedule is complete (`Gantt.Complete`):
  - Blocks never overlap, and each is at most one quantum long (twice the
    quantum for the enhanced scheduler).
  - No block starts before its process arrives.
  - The processor idles only until the next arrival: a block starts where
    the previous one ended, or exactly at its own process's arrival.
  - For each process: its blocks add up to its burst; its remaining burst is
    0; its completion is the end of its last block; turnaround is completion
    minus arrival; waiting is turnaround minus burst, and is never negative.
- The two averages are the means of these metrics (`Metrics.IsMean`).
- An empty input gives no processes, no blocks and averages of 0.

The standard scheduler promises three more facts about its log, which
`Complete` alone does not. Together they form `StandardRR.RoundRobinLog`:

- `StandardRR.OnlyLastShort`: every block of a process except its last is a
  full quantum.
- `StandardRR.EmptyOnlyWithoutBurst`: a block is empty only when its process
  has burst 0. The source dispatches a process again only while it has burst
  left, so the only empty block it writes is the single block of a process
  with burst 0.
- `StandardRR.NoIdleWhileWaiting`: when the processor idles before a block,
  no process that runs from that block on had arrived before the block
  starts.

With the burst totals of `Complete`, the first two facts leave each process
exactly the blocks the source gives it: full quanta, then one last block of
what is left, or a single empty block for a burst of 0.
`StandardRR.EmptyBlockAlone` proves the last part: an empty block is its
process's only block.

For the enhanced scheduler, `EnhancedFirstCycleLog` states the first cycle
block by block. `EnhancedSecondPhaseLog` states the rest of the log: the
processes of the second order run one after another, back to back, in full
slices of twice the quantum except each one's last, and no block is empty.

## Left out

- The JavaFX user interface is not modelled: `start`, the tables, the button handler, the layout and `main`. It is presentation only.
- The text rendering of the Gantt log and of the averages is not modelled. It is display only.
- The `Color` field of a process is not modelled. It has no effect on scheduling.
- Input parsing and the error dialog for a bad quantum are replaced by `requires quantum > 0`. The schedulers have no error path of their own: only the UI rejects a quantum of 0 or less, at `App.java:266`, before it calls a scheduler. With quantum 0 the standard loop and the second phase would never end.
- Negative burst times are excluded by `requires` on the two schedulers. The burst column of the input table is editable (`App.java:321-324`): `setBurstTime` accepts any `int`, negative values included. With a negative burst the source would run the clock backwards at `App.java:102`. The model does not cover that case.
- The setters of `Process` are not modelled. A run never calls them: it works on fresh copies.
- Mutation of the caller's list is not modelled, because the model has none. Every run starts from `Processes.Initial`, which builds fresh copies. Input values are never changed.
- Metrics.Mean: the averages are exact rationals, not IEEE doubles. The `double` rounding of `IntStream.average()` is not modelled.
- Java `int` overflow is not modelled, including `quantum * 2` in the enhanced scheduler. All arithmetic is unbounded, so the model covers the inputs for which the source does not overflow.
- Blocks carry the index of their process (`pid`) as well as its name. Process names need not be unique, so per-process properties are stated by index. The predicate `Gantt.BlocksValid` says that a block's name is its process's name. `StandardRR.RunKeepsInv` and `EnhancedRR.BothPhasesFinish` establish it for the two schedulers.
- Process identity is by index, not by object identity:
  - The first cycle's `HashSet` of executed processes becomes a set of indices.
  - The `!readyQueue.contains(p)` test during admission is dropped. A process leaves the pool when it is queued, so a pooled process is never in the queue and the test always holds.
  - The first loop's `allMatch` exit test becomes `FirstCycle.AllExecuted`.
- StandardRR.DispatchOrder: the order of the new arrivals is stated through `Admission.Arrived`, the pool filtered by arrival. That they form a prefix of the pool in pool order is proved separately, in `Admission.ArrivedIsPrefix`, for pools ordered by arrival.
