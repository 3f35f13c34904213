/**
  The per-process record of the simulator (`App.Process`): an identity that a
  run never changes (name, arrival time, burst time) together with the state a
  run computes (remaining burst, completion, turnaround and waiting time).
 */
module Processes {
  import opened StableSort

  datatype Proc = Proc(
    name: string,
    arrival: int,
    burst: int,
    remaining: int,
    completion: int,
    turnaround: int,
    waiting: int)

  /** The state a process has before any run touches it. */
  ghost predicate Pristine(p: Proc) {
    p.remaining == p.burst && p.completion == 0 && p.turnaround == 0 && p.waiting == 0
  }

  /** `p` and `p'` describe the same process. */
  ghost predicate SameIdentity(p: Proc, p': Proc) {
    p.name == p'.name && p.arrival == p'.arrival && p.burst == p'.burst
  }

  /** Position by position, `a` and `b` describe the same processes. */
  ghost predicate SameIdentities(a: seq<Proc>, b: seq<Proc>) {
    |a| == |b| && forall i :: 0 <= i < |a| ==> SameIdentity(a[i], b[i])
  }

  /** The constructor: remaining burst starts at the burst, the metrics at zero. */
  function NewProcess(name: string, arrival: int, burst: int): (p: Proc)
    ensures Pristine(p)
    ensures p.name == name && p.arrival == arrival && p.burst == burst
  {
    Proc(name, arrival, burst, burst, 0, 0, 0)
  }

  /** `reset`: back to the state of a freshly constructed process. */
  function Reset(p: Proc): (r: Proc)
    ensures Pristine(r) && SameIdentity(p, r)
  {
    p.(remaining := p.burst, completion := 0, turnaround := 0, waiting := 0)
  }

  /** Resetting leaves exactly what the constructor would have built. */
  lemma ResetIsNewProcess(p: Proc)
    ensures Reset(p) == NewProcess(p.name, p.arrival, p.burst)
    ensures Reset(Reset(p)) == Reset(p)
  {
  }

  /** The sort key of both schedulers' process list. */
  function Arrival(p: Proc): int {
    p.arrival
  }

  /** A private copy of every input process, built by the constructor. */
  function Copies(ps: seq<Proc>): (r: seq<Proc>)
    ensures |r| == |ps|
    ensures forall i :: 0 <= i < |r| ==> Pristine(r[i]) && SameIdentity(ps[i], r[i])
  {
    seq(|ps|, i requires 0 <= i < |ps| => NewProcess(ps[i].name, ps[i].arrival, ps[i].burst))
  }

  /** The working process list of a run: fresh copies, stably sorted by arrival. */
  function Initial(ps: seq<Proc>): seq<Proc> {
    SortBy(Copies(ps), Arrival)
  }

  /**
    The working list is a stable sort of fresh copies by arrival time: ordered,
    a permutation of the copies, processes that arrive together keep their
    input order, and every copy is in its initial state.
   */
  lemma InitialIsStableSort(ps: seq<Proc>)
    ensures SortedBy(Initial(ps), Arrival)
    ensures multiset(Initial(ps)) == multiset(Copies(ps))
    ensures forall a :: KeyClass(Initial(ps), Arrival, a) == KeyClass(Copies(ps), Arrival, a)
    ensures |Initial(ps)| == |ps|
    ensures forall i :: 0 <= i < |ps| ==> Pristine(Initial(ps)[i])
    ensures forall i :: 0 <= i < |ps| ==> exists j :: 0 <= j < |ps| && SameIdentity(ps[j], Initial(ps)[i])
  {
    SortByIsStableSort(Copies(ps), Arrival);
    InitialLength(ps);
    forall i | 0 <= i < |ps|
      ensures Pristine(Initial(ps)[i])
      ensures exists j :: 0 <= j < |ps| && SameIdentity(ps[j], Initial(ps)[i])
    {
      InitialElement(ps, i);
    }
  }

  lemma InitialLength(ps: seq<Proc>)
    ensures |Initial(ps)| == |ps|
  {
    assert |multiset(Initial(ps))| == |multiset(Copies(ps))|;
  }

  /** Each process of the working list is a fresh copy of some input process. */
  lemma InitialElement(ps: seq<Proc>, i: nat)
    requires i < |Initial(ps)|
    ensures Pristine(Initial(ps)[i])
    ensures exists j :: 0 <= j < |ps| && SameIdentity(ps[j], Initial(ps)[i])
  {
    var r := Initial(ps);
    assert r[i] in multiset(r);
    assert r[i] in multiset(Copies(ps));
    var j :| 0 <= j < |Copies(ps)| && Copies(ps)[j] == r[i];
    assert SameIdentity(ps[j], r[i]);
  }

  /** With no negative burst in the input, the working list has none either. */
  lemma InitialBurstsNonNegative(ps: seq<Proc>)
    requires forall i :: 0 <= i < |ps| ==> ps[i].burst >= 0
    ensures |Initial(ps)| == |ps|
    ensures forall i :: 0 <= i < |ps| ==> Initial(ps)[i].remaining == Initial(ps)[i].burst >= 0
  {
    InitialIsStableSort(ps);
    forall i | 0 <= i < |ps| ensures Initial(ps)[i].burst >= 0 {
      var j :| 0 <= j < |ps| && SameIdentity(ps[j], Initial(ps)[i]);
    }
  }

  /** Sum of the remaining bursts. */
  function TotalRemaining(procs: seq<Proc>): int
    decreases |procs|
  {
    if |procs| == 0 then 0 else procs[0].remaining + TotalRemaining(procs[1..])
  }

  /** Replacing one process changes the total by the change of its remaining burst. */
  lemma {:induction false} TotalRemainingUpdate(procs: seq<Proc>, h: nat, p: Proc)
    requires h < |procs|
    ensures TotalRemaining(procs[h := p]) == TotalRemaining(procs) - procs[h].remaining + p.remaining
    decreases |procs|
  {
    if h > 0 {
      assert procs[h := p][1..] == procs[1..][h - 1 := p];
      TotalRemainingUpdate(procs[1..], h - 1, p);
    }
  }

  /** The total is non-negative when no remaining burst is negative. */
  lemma {:induction false} TotalRemainingNonNegative(procs: seq<Proc>)
    requires forall i :: 0 <= i < |procs| ==> procs[i].remaining >= 0
    ensures TotalRemaining(procs) >= 0
    decreases |procs|
  {
    if |procs| > 0 {
      TotalRemainingNonNegative(procs[1..]);
    }
  }

  /** The latest arrival time (0 for no process). */
  function MaxArrival(procs: seq<Proc>): (m: int)
    ensures forall i :: 0 <= i < |procs| ==> procs[i].arrival <= m
    ensures |procs| > 0 ==> exists i :: 0 <= i < |procs| && procs[i].arrival == m
    decreases |procs|
  {
    if |procs| == 0 then 0
    else if |procs| == 1 then procs[0].arrival
    else
      var m := MaxArrival(procs[1..]);
      if procs[0].arrival >= m then procs[0].arrival else m
  }
}
