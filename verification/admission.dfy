/**
  Arrival admission, shared by both schedulers: the job pool holds the
  processes that have not arrived yet, in process-list order; every scan moves
  those whose arrival time has passed to the tail of the ready queue, in
  job-pool order. Processes are referred to by their index in the process list.
 */
module Admission {
  import opened Processes
  import opened StableSort

  /** Every entry of `s` indexes a process among `n`. */
  ghost predicate IndicesIn(s: seq<nat>, n: nat) {
    forall k :: 0 <= k < |s| ==> s[k] < n
  }

  /** The indices lo, lo + 1, ..., hi - 1. */
  function Range(lo: nat, hi: nat): (r: seq<nat>)
    requires lo <= hi
    ensures |r| == hi - lo
    ensures forall k :: 0 <= k < |r| ==> r[k] == lo + k
    decreases hi - lo
  {
    if lo == hi then [] else [lo] + Range(lo + 1, hi)
  }

  /** The processes of the pool that have arrived by time `t`, in pool order. */
  function Arrived(procs: seq<Proc>, pool: seq<nat>, t: int): (r: seq<nat>)
    requires IndicesIn(pool, |procs|)
    ensures IndicesIn(r, |procs|)
    ensures forall k :: 0 <= k < |r| ==> procs[r[k]].arrival <= t
    decreases |pool|
  {
    if |pool| == 0 then []
    else
      var rest := Arrived(procs, pool[1..], t);
      if procs[pool[0]].arrival <= t then [pool[0]] + rest else rest
  }

  /** The processes of the pool that have not arrived by time `t`, in pool order. */
  function Pending(procs: seq<Proc>, pool: seq<nat>, t: int): (r: seq<nat>)
    requires IndicesIn(pool, |procs|)
    ensures IndicesIn(r, |procs|)
    ensures forall k :: 0 <= k < |r| ==> procs[r[k]].arrival > t
    decreases |pool|
  {
    if |pool| == 0 then []
    else
      var rest := Pending(procs, pool[1..], t);
      if procs[pool[0]].arrival > t then [pool[0]] + rest else rest
  }

  /** Admission splits the pool: nothing is lost and nothing is duplicated. */
  lemma {:induction false} AdmissionSplitsPool(procs: seq<Proc>, pool: seq<nat>, t: int)
    requires IndicesIn(pool, |procs|)
    ensures multiset(Arrived(procs, pool, t)) + multiset(Pending(procs, pool, t)) == multiset(pool)
    ensures |Arrived(procs, pool, t)| + |Pending(procs, pool, t)| == |pool|
    decreases |pool|
  {
    if |pool| > 0 {
      AdmissionSplitsPool(procs, pool[1..], t);
      assert pool == [pool[0]] + pool[1..];
    }
  }

  /** Exactly the processes of the pool that have arrived are admitted. */
  lemma {:induction false} ArrivedMembers(procs: seq<Proc>, pool: seq<nat>, t: int, x: nat)
    requires IndicesIn(pool, |procs|)
    ensures x in Arrived(procs, pool, t) <==> x in pool && procs[x].arrival <= t
    ensures x in Pending(procs, pool, t) <==> x in pool && procs[x].arrival > t
    decreases |pool|
  {
    if |pool| > 0 {
      ArrivedMembers(procs, pool[1..], t, x);
      assert pool == [pool[0]] + pool[1..];
    }
  }

  /** The processes of `pool` appear in ascending arrival time. */
  ghost predicate ArrivalOrdered(procs: seq<Proc>, pool: seq<nat>)
    requires IndicesIn(pool, |procs|)
  {
    forall a, b :: 0 <= a < b < |pool| ==> procs[pool[a]].arrival <= procs[pool[b]].arrival
  }

  /**
    On a pool ordered by arrival time, the admitted processes are exactly a
    prefix of the pool and those left behind are the rest of it.
   */
  lemma {:induction false} ArrivedIsPrefix(procs: seq<Proc>, pool: seq<nat>, t: int)
    requires IndicesIn(pool, |procs|) && ArrivalOrdered(procs, pool)
    ensures Arrived(procs, pool, t) + Pending(procs, pool, t) == pool
    decreases |pool|
  {
    if |pool| > 0 {
      var tail := pool[1..];
      OrderedTail(procs, pool);
      ArrivedIsPrefix(procs, tail, t);
      if procs[pool[0]].arrival > t {
        forall k | 0 <= k < |tail| ensures procs[tail[k]].arrival > t {
          assert tail[k] == pool[k + 1];
        }
        NoneArrived(procs, tail, t);
        PendingHead(procs, pool, t);
      } else {
        ArrivedHead(procs, pool, t);
      }
    }
  }

  lemma OrderedTail(procs: seq<Proc>, pool: seq<nat>)
    requires |pool| > 0 && IndicesIn(pool, |procs|) && ArrivalOrdered(procs, pool)
    ensures IndicesIn(pool[1..], |procs|) && ArrivalOrdered(procs, pool[1..])
  {
    var tail := pool[1..];
    forall a, b | 0 <= a < b < |tail|
      ensures procs[tail[a]].arrival <= procs[tail[b]].arrival
    {
      assert tail[a] == pool[a + 1] && tail[b] == pool[b + 1];
    }
  }

  lemma PendingHead(procs: seq<Proc>, pool: seq<nat>, t: int)
    requires |pool| > 0 && IndicesIn(pool, |procs|) && procs[pool[0]].arrival > t
    requires Arrived(procs, pool[1..], t) + Pending(procs, pool[1..], t) == pool[1..]
    requires Arrived(procs, pool[1..], t) == []
    ensures Arrived(procs, pool, t) + Pending(procs, pool, t) == pool
  {
    assert pool == [pool[0]] + pool[1..];
  }

  lemma ArrivedHead(procs: seq<Proc>, pool: seq<nat>, t: int)
    requires |pool| > 0 && IndicesIn(pool, |procs|) && procs[pool[0]].arrival <= t
    requires Arrived(procs, pool[1..], t) + Pending(procs, pool[1..], t) == pool[1..]
    ensures Arrived(procs, pool, t) + Pending(procs, pool, t) == pool
  {
    assert pool == [pool[0]] + pool[1..];
  }

  /** Nothing is admitted from a pool whose processes all arrive later. */
  lemma {:induction false} NoneArrived(procs: seq<Proc>, pool: seq<nat>, t: int)
    requires IndicesIn(pool, |procs|)
    requires forall k :: 0 <= k < |pool| ==> procs[pool[k]].arrival > t
    ensures Arrived(procs, pool, t) == []
    decreases |pool|
  {
    if |pool| > 0 {
      NoneArrived(procs, pool[1..], t);
    }
  }

  /** A process list sorted by arrival makes every index range arrival-ordered. */
  lemma RangeArrivalOrdered(procs: seq<Proc>, lo: nat, hi: nat)
    requires lo <= hi <= |procs|
    requires SortedBy(procs, Arrival)
    ensures IndicesIn(Range(lo, hi), |procs|)
    ensures ArrivalOrdered(procs, Range(lo, hi))
  {
    var r := Range(lo, hi);
    forall a, b | 0 <= a < b < |r|
      ensures procs[r[a]].arrival <= procs[r[b]].arrival
    {
      assert Arrival(procs[r[a]]) <= Arrival(procs[r[b]]);
    }
  }

  /** A split of an index range: the second part is the upper end of the range. */
  lemma RangeSuffix(a: seq<nat>, b: seq<nat>, lo: nat, hi: nat)
    requires lo <= hi && a + b == Range(lo, hi)
    ensures lo + |a| <= hi && b == Range(lo + |a|, hi)
  {
    var r := Range(lo + |a|, hi);
    assert |b| == |r|;
    forall k | 0 <= k < |b| ensures b[k] == r[k] {
      assert b[k] == (a + b)[|a| + k];
    }
  }

  /** An index range has no repeated index. */
  lemma RangeUnique(lo: nat, hi: nat)
    requires lo <= hi
    ensures Unique(Range(lo, hi))
  {
  }
}
