/**
  Stable insertion sort by an integer key.

  Java's `Stream.sorted(Comparator.comparingInt(...))` is stable on an ordered
  stream: elements with equal keys keep their relative order. Both schedulers
  rely on it (by arrival time, and by remaining burst in the second phase of the
  enhanced scheduler), so the sort is specified here by the three facts that
  characterise a stable sort: the result is ordered, it is a permutation, and
  every class of equal keys appears in its original order.
 */
module StableSort {

  /** `s` is in ascending order of `key`. */
  ghost predicate SortedBy<T>(s: seq<T>, key: T -> int) {
    forall i, j :: 0 <= i < j < |s| ==> key(s[i]) <= key(s[j])
  }

  /** The elements of `s` whose key is `k`, in their order in `s`. */
  function KeyClass<T>(s: seq<T>, key: T -> int, k: int): seq<T>
    decreases |s|
  {
    if |s| == 0 then [] else Pick(s[0], key, k) + KeyClass(s[1..], key, k)
  }

  /** `[x]` when `x` has key `k`, otherwise empty. */
  function Pick<T>(x: T, key: T -> int, k: int): seq<T> {
    if key(x) == k then [x] else []
  }

  /** Inserts `x` in front of the first element whose key is not smaller. */
  function Insert<T(==)>(x: T, s: seq<T>, key: T -> int): (r: seq<T>)
    ensures multiset(r) == multiset(s) + multiset{x}
    decreases |s|
  {
    if |s| == 0 || key(x) <= key(s[0]) then [x] + s
    else
      assert s == [s[0]] + s[1..];
      [s[0]] + Insert(x, s[1..], key)
  }

  /** Stable insertion sort: the first element is inserted into the sorted rest. */
  function SortBy<T(==)>(s: seq<T>, key: T -> int): (r: seq<T>)
    ensures multiset(r) == multiset(s)
    decreases |s|
  {
    if |s| == 0 then []
    else
      assert s == [s[0]] + s[1..];
      Insert(s[0], SortBy(s[1..], key), key)
  }

  lemma {:induction false} InsertSorted<T>(x: T, s: seq<T>, key: T -> int)
    requires SortedBy(s, key)
    ensures SortedBy(Insert(x, s, key), key)
    decreases |s|
  {
    if |s| == 0 || key(x) <= key(s[0]) {
    } else {
      var rest := Insert(x, s[1..], key);
      InsertSorted(x, s[1..], key);
      forall j | 0 <= j < |rest|
        ensures key(s[0]) <= key(rest[j])
      {
        assert rest[j] in multiset(rest);
        if rest[j] != x {
          assert rest[j] in s[1..];
        }
      }
    }
  }

  lemma {:induction false} SortBySorted<T>(s: seq<T>, key: T -> int)
    ensures SortedBy(SortBy(s, key), key)
    decreases |s|
  {
    if |s| > 0 {
      SortBySorted(s[1..], key);
      InsertSorted(s[0], SortBy(s[1..], key), key);
    }
  }

  lemma KeyClassCons<T>(x: T, s: seq<T>, key: T -> int, k: int)
    ensures KeyClass([x] + s, key, k) == Pick(x, key, k) + KeyClass(s, key, k)
  {
    assert ([x] + s)[1..] == s;
  }

  lemma {:induction false} KeyClassInsert<T>(x: T, s: seq<T>, key: T -> int, k: int)
    requires SortedBy(s, key)
    ensures KeyClass(Insert(x, s, key), key, k) == Pick(x, key, k) + KeyClass(s, key, k)
    decreases |s|
  {
    if |s| == 0 || key(x) <= key(s[0]) {
      KeyClassCons(x, s, key, k);
    } else {
      var tail := s[1..];
      assert SortedBy(tail, key) by {
        forall i, j | 0 <= i < j < |tail| ensures key(tail[i]) <= key(tail[j]) {
          assert tail[i] == s[i + 1] && tail[j] == s[j + 1];
        }
      }
      var rest := Insert(x, tail, key);
      KeyClassInsert(x, tail, key, k);
      var a, b, c := Pick(s[0], key, k), Pick(x, key, k), KeyClass(tail, key, k);
      assert a == [] || b == [];
      calc {
        KeyClass(Insert(x, s, key), key, k);
        KeyClass([s[0]] + rest, key, k);
        { KeyClassCons(s[0], rest, key, k); }
        a + (b + c);
        b + (a + c);
        { KeyClassCons(s[0], tail, key, k); assert s == [s[0]] + tail; }
        b + KeyClass(s, key, k);
      }
    }
  }

  /** The sort is stable: each class of equal keys keeps its order. */
  lemma {:induction false} SortByStable<T>(s: seq<T>, key: T -> int, k: int)
    ensures KeyClass(SortBy(s, key), key, k) == KeyClass(s, key, k)
    decreases |s|
  {
    if |s| > 0 {
      SortBySorted(s[1..], key);
      KeyClassInsert(s[0], SortBy(s[1..], key), key, k);
      SortByStable(s[1..], key, k);
    }
  }

  /** Sorting keeps exactly the elements it was given. */
  lemma SortByMember<T>(s: seq<T>, key: T -> int, x: T)
    ensures x in SortBy(s, key) <==> x in s
  {
    assert x in SortBy(s, key) <==> x in multiset(SortBy(s, key));
  }

  /** The three facts that together pin down a stable sort. */
  lemma SortByIsStableSort<T>(s: seq<T>, key: T -> int)
    ensures SortedBy(SortBy(s, key), key)
    ensures multiset(SortBy(s, key)) == multiset(s)
    ensures forall k :: KeyClass(SortBy(s, key), key, k) == KeyClass(s, key, k)
  {
    SortBySorted(s, key);
    forall k ensures KeyClass(SortBy(s, key), key, k) == KeyClass(s, key, k) {
      SortByStable(s, key, k);
    }
  }

  /** Among elements of equal key, the smaller index comes first. */
  ghost predicate TiesAscending(s: seq<nat>, key: nat -> int) {
    forall i, j :: 0 <= i < j < |s| && key(s[i]) == key(s[j]) ==> s[i] < s[j]
  }

  /** `s` is strictly increasing. */
  ghost predicate Increasing(s: seq<nat>) {
    forall i, j :: 0 <= i < j < |s| ==> s[i] < s[j]
  }

  lemma {:induction false} InsertKeepsTies(x: nat, s: seq<nat>, key: nat -> int)
    requires TiesAscending(s, key)
    requires forall y :: y in s ==> x < y
    ensures TiesAscending(Insert(x, s, key), key)
    decreases |s|
  {
    if |s| == 0 || key(x) <= key(s[0]) {
      TiesCons(x, s, key);
    } else {
      var rest := Insert(x, s[1..], key);
      forall y | y in s[1..] ensures x < y { assert y in s; }
      InsertKeepsTies(x, s[1..], key);
      forall y | y in rest && key(y) == key(s[0]) ensures s[0] < y {
        assert y in multiset(rest);
        HeadBeforeTies(s, key, y);
      }
      TiesCons(s[0], rest, key);
    }
  }

  /** Putting `a` in front keeps ties ascending when `a` is below every element of equal key. */
  lemma TiesCons(a: nat, s: seq<nat>, key: nat -> int)
    requires TiesAscending(s, key)
    requires forall y :: y in s && key(y) == key(a) ==> a < y
    ensures TiesAscending([a] + s, key)
  {
    var r := [a] + s;
    forall i, j | 0 <= i < j < |r| && key(r[i]) == key(r[j])
      ensures r[i] < r[j]
    {
      assert r[j] == s[j - 1];
      if i == 0 {
        assert s[j - 1] in s;
      } else {
        assert r[i] == s[i - 1];
      }
    }
  }

  /** In a sequence with ascending ties, the head is below every later element of equal key. */
  lemma HeadBeforeTies(s: seq<nat>, key: nat -> int, y: nat)
    requires TiesAscending(s, key) && |s| > 0
    requires y in s[1..] && key(y) == key(s[0])
    ensures s[0] < y
  {
    var m :| 0 <= m < |s[1..]| && s[1..][m] == y;
    assert s[m + 1] == y;
  }

  /**
    Sorting an increasing sequence of indices keeps equal keys in index
    order: a tie is always broken by the smaller index.
   */
  lemma {:induction false} SortByTiesAscending(s: seq<nat>, key: nat -> int)
    requires Increasing(s)
    ensures TiesAscending(SortBy(s, key), key)
    decreases |s|
  {
    if |s| > 0 {
      SortByTiesAscending(s[1..], key);
      var rest := SortBy(s[1..], key);
      forall y | y in rest ensures s[0] < y {
        assert y in multiset(rest);
        assert y in s[1..];
      }
      InsertKeepsTies(s[0], rest, key);
    }
  }

  /** No element occurs twice. */
  ghost predicate Unique(s: seq<nat>) {
    forall a, b :: 0 <= a < b < |s| ==> s[a] != s[b]
  }

  /** When ties are broken by strictly smaller index, no index can repeat. */
  lemma TiesAscendingUnique(s: seq<nat>, key: nat -> int)
    requires TiesAscending(s, key)
    ensures Unique(s)
  {
  }

  /** A sequence has no repeated element exactly when each element occurs at most once in its multiset. */
  lemma {:induction false} UniqueCounts(s: seq<nat>)
    ensures Unique(s) <==> forall x :: multiset(s)[x] <= 1
    decreases |s|
  {
    if |s| > 0 {
      var t := s[1..];
      UniqueCounts(t);
      assert s == [s[0]] + t;
      assert multiset(s) == multiset{s[0]} + multiset(t);
      if Unique(s) {
        assert s[0] !in t by {
          forall k | 0 <= k < |t| ensures t[k] != s[0] { assert t[k] == s[k + 1]; }
        }
        assert Unique(t) by {
          forall a, b | 0 <= a < b < |t| ensures t[a] != t[b] { assert t[a] == s[a + 1] && t[b] == s[b + 1]; }
        }
      }
      if forall x :: multiset(s)[x] <= 1 {
        assert multiset(s)[s[0]] <= 1;
        assert forall x :: multiset(t)[x] <= multiset(s)[x];
        forall a, b | 0 <= a < b < |s| ensures s[a] != s[b] {
          if a == 0 {
            assert s[b] in t;
          } else {
            assert s[a] == t[a - 1] && s[b] == t[b - 1];
          }
        }
      }
    }
  }

  /** An element is in neither of two sequences exactly when it is absent from their concatenation. */
  lemma AbsentFromBoth(a: seq<nat>, b: seq<nat>, x: nat)
    ensures (x !in a && x !in b) <==> multiset(a + b)[x] == 0
  {
    assert multiset(a + b) == multiset(a) + multiset(b);
  }
}
