/** Stable sorting by a total preorder: what `sorted` and `list.sort` do. */
module Sorting {
  import opened Sequences

  ghost predicate TotalPreorder<T(!new)>(leq: (T, T) -> bool) {
    && (forall x, y :: leq(x, y) || leq(y, x))
    && (forall x, y, z :: leq(x, y) && leq(y, z) ==> leq(x, z))
  }

  /** Inserts `x` after the elements not above it. */
  function Insert<T>(s: seq<T>, x: T, leq: (T, T) -> bool): seq<T> {
    if s == [] || leq(Last(s), x) then s + [x]
    else Insert(s[..|s| - 1], x, leq) + [Last(s)]
  }

  function Sort<T>(s: seq<T>, leq: (T, T) -> bool): seq<T> {
    if s == [] then [] else Insert(Sort(s[..|s| - 1], leq), Last(s), leq)
  }

  ghost predicate Sorted<T>(s: seq<T>, leq: (T, T) -> bool) {
    forall i, j :: 0 <= i < j < |s| ==> leq(s[i], s[j])
  }

  lemma {:induction false} InsertMultiset<T>(s: seq<T>, x: T, leq: (T, T) -> bool)
    ensures multiset(Insert(s, x, leq)) == multiset(s) + multiset{x}
    ensures |Insert(s, x, leq)| == |s| + 1
  {
    if s != [] && !leq(Last(s), x) {
      InsertMultiset(s[..|s| - 1], x, leq);
      assert s == s[..|s| - 1] + [Last(s)];
    }
  }

  lemma {:induction false} InsertMembers<T>(s: seq<T>, x: T, leq: (T, T) -> bool, i: nat)
    requires i < |Insert(s, x, leq)|
    ensures Insert(s, x, leq)[i] == x || exists k :: 0 <= k < |s| && s[k] == Insert(s, x, leq)[i]
  {
    if s != [] && !leq(Last(s), x) {
      var front := s[..|s| - 1];
      if i < |Insert(front, x, leq)| {
        InsertMembers(front, x, leq, i);
      } else {
        assert s[|s| - 1] == Insert(s, x, leq)[i];
      }
    }
  }

  lemma {:induction false} Transitive<T(!new)>(leq: (T, T) -> bool, x: T, y: T, z: T)
    requires TotalPreorder(leq) && leq(x, y) && leq(y, z)
    ensures leq(x, z)
  {
  }

  lemma {:induction false} Comparable<T(!new)>(leq: (T, T) -> bool, x: T, y: T)
    requires TotalPreorder(leq)
    ensures leq(x, y) || leq(y, x)
  {
  }

  lemma {:induction false} InsertSorted<T(!new)>(s: seq<T>, x: T, leq: (T, T) -> bool)
    requires TotalPreorder(leq) && Sorted(s, leq)
    ensures Sorted(Insert(s, x, leq), leq)
  {
    hide TotalPreorder;
    if s == [] || leq(Last(s), x) {
      forall i | 0 <= i < |s|
        ensures leq(s[i], x)
      {
        if i < |s| - 1 { Transitive(leq, s[i], Last(s), x); }
      }
    } else {
      var front := s[..|s| - 1];
      InsertSorted(front, x, leq);
      Comparable(leq, Last(s), x);
      var t := Insert(front, x, leq);
      forall i | 0 <= i < |t|
        ensures leq(t[i], Last(s))
      {
        InsertMembers(front, x, leq, i);
        if t[i] != x {
          var k :| 0 <= k < |front| && front[k] == t[i];
          assert leq(s[k], s[|s| - 1]);
        }
      }
    }
  }

  lemma {:induction false} SortMultiset<T>(s: seq<T>, leq: (T, T) -> bool)
    ensures multiset(Sort(s, leq)) == multiset(s)
    ensures |Sort(s, leq)| == |s|
  {
    hide Insert;
    if s != [] {
      SortMultiset(s[..|s| - 1], leq);
      InsertMultiset(Sort(s[..|s| - 1], leq), Last(s), leq);
      assert s == s[..|s| - 1] + [Last(s)];
    }
  }

  lemma {:induction false} SortSorted<T(!new)>(s: seq<T>, leq: (T, T) -> bool)
    requires TotalPreorder(leq)
    ensures Sorted(Sort(s, leq), leq)
  {
    hide Insert, TotalPreorder;
    if s != [] {
      SortSorted(s[..|s| - 1], leq);
      InsertSorted(Sort(s[..|s| - 1], leq), Last(s), leq);
    }
  }

  /** Sorting permutes and sorts. */
  lemma {:induction false} SortFacts<T(!new)>(s: seq<T>, leq: (T, T) -> bool)
    requires TotalPreorder(leq)
    ensures Sorted(Sort(s, leq), leq)
    ensures multiset(Sort(s, leq)) == multiset(s)
    ensures |Sort(s, leq)| == |s|
  {
    hide Sort, TotalPreorder, Sorted;
    SortSorted(s, leq);
    SortMultiset(s, leq);
  }

  lemma {:induction false} SortMembers<T(!new)>(s: seq<T>, leq: (T, T) -> bool, x: T)
    requires TotalPreorder(leq)
    ensures x in Sort(s, leq) <==> x in s
  {
    hide Sort, Sorted, TotalPreorder;
    SortFacts(s, leq);
    assert x in Sort(s, leq) <==> x in multiset(Sort(s, leq));
    assert x in s <==> x in multiset(s);
  }

  // ---------------------------------------------------------------- distinct keys

  predicate DistinctBy<T, K(==)>(s: seq<T>, key: T -> K) {
    forall i, j :: 0 <= i < j < |s| ==> key(s[i]) != key(s[j])
  }

  lemma {:induction false} InsertDistinct<T, K>(s: seq<T>, x: T, leq: (T, T) -> bool, key: T -> K)
    requires DistinctBy(s, key) && forall i :: 0 <= i < |s| ==> key(s[i]) != key(x)
    ensures DistinctBy(Insert(s, x, leq), key)
    ensures forall i :: 0 <= i < |Insert(s, x, leq)| ==> Insert(s, x, leq)[i] == x || Insert(s, x, leq)[i] in s
  {
    if s != [] && !leq(Last(s), x) {
      var front := s[..|s| - 1];
      InsertDistinct(front, x, leq, key);
      var t := Insert(front, x, leq);
      forall i | 0 <= i < |t|
        ensures key(t[i]) != key(Last(s)) && (t[i] == x || t[i] in s)
      {
        if t[i] != x {
          var k :| 0 <= k < |front| && front[k] == t[i];
          assert s[k] == t[i];
        }
      }
    }
  }

  /** Sorting keeps keys distinct. */
  lemma {:induction false} SortDistinct<T, K>(s: seq<T>, leq: (T, T) -> bool, key: T -> K)
    requires DistinctBy(s, key)
    ensures DistinctBy(Sort(s, leq), key)
    ensures forall i :: 0 <= i < |Sort(s, leq)| ==> Sort(s, leq)[i] in s
  {
    hide Insert;
    if s != [] {
      var front := s[..|s| - 1];
      SortDistinct(front, leq, key);
      var t := Sort(front, leq);
      forall i | 0 <= i < |t|
        ensures key(t[i]) != key(Last(s))
      {
        var k :| 0 <= k < |front| && front[k] == t[i];
        assert s[k] == t[i];
      }
      InsertDistinct(t, Last(s), leq, key);
      forall i | 0 <= i < |Sort(s, leq)|
        ensures Sort(s, leq)[i] in s
      {
        if Sort(s, leq)[i] != Last(s) {
          var k :| 0 <= k < |t| && t[k] == Sort(s, leq)[i];
          assert t[k] in front;
        }
      }
    }
  }

  // ---------------------------------------------------------------- stability

  /** The elements of `s` that neither precede nor follow `x`, in order. */
  function Ties<T>(s: seq<T>, x: T, leq: (T, T) -> bool): seq<T> {
    if s == [] then []
    else Ties(s[..|s| - 1], x, leq) + (if leq(x, Last(s)) && leq(Last(s), x) then [Last(s)] else [])
  }

  lemma {:induction false} TiesAppend<T>(s: seq<T>, y: T, x: T, leq: (T, T) -> bool)
    ensures Ties(s + [y], x, leq) == Ties(s, x, leq) + (if leq(x, y) && leq(y, x) then [y] else [])
  {
    assert (s + [y])[..|s|] == s;
  }

  lemma {:induction false} InsertKeepsTies<T(!new)>(s: seq<T>, y: T, x: T, leq: (T, T) -> bool)
    requires TotalPreorder(leq)
    ensures Ties(Insert(s, y, leq), x, leq) == Ties(s + [y], x, leq)
  {
    hide TotalPreorder, Ties;
    if s != [] && !leq(Last(s), y) {
      var front := s[..|s| - 1];
      InsertKeepsTies(front, y, x, leq);
      TiesAppend(Insert(front, y, leq), Last(s), x, leq);
      TiesAppend(front, y, x, leq);
      TiesAppend(front, Last(s), x, leq);
      assert s == front + [Last(s)];
      TiesAppend(s, y, x, leq);
      if leq(Last(s), x) && leq(x, y) { Transitive(leq, Last(s), x, y); }
    }
  }

  /** Elements that tie keep their order. */
  lemma {:induction false} SortStable<T(!new)>(s: seq<T>, x: T, leq: (T, T) -> bool)
    requires TotalPreorder(leq)
    ensures Ties(Sort(s, leq), x, leq) == Ties(s, x, leq)
  {
    hide Insert, TotalPreorder;
    if s != [] {
      var front := s[..|s| - 1];
      SortStable(front, x, leq);
      InsertKeepsTies(Sort(front, leq), Last(s), x, leq);
      TiesAppend(Sort(front, leq), Last(s), x, leq);
    }
  }

  lemma {:induction false} TieRank<T>(s: seq<T>, x: T, leq: (T, T) -> bool, n: nat, i: nat)
    requires i < n <= |s| && leq(s[i], x) && leq(x, s[i])
    ensures |Ties(s[..i], x, leq)| < |Ties(s[..n], x, leq)|
    ensures Ties(s[..n], x, leq)[|Ties(s[..i], x, leq)|] == s[i]
    decreases n
  {
    assert s[..n] == s[..n - 1] + [s[n - 1]];
    TiesAppend(s[..n - 1], s[n - 1], x, leq);
    if i < n - 1 { TieRank(s, x, leq, n - 1, i); }
  }

  lemma {:induction false} TiePosition<T>(s: seq<T>, x: T, leq: (T, T) -> bool, n: nat, k: nat) returns (p: nat)
    requires n <= |s| && k < |Ties(s[..n], x, leq)|
    ensures p < n && s[p] == Ties(s[..n], x, leq)[k] && |Ties(s[..p], x, leq)| == k
  {
    assert s[..0] == [];
    assert s[..n] == s[..n - 1] + [s[n - 1]];
    TiesAppend(s[..n - 1], s[n - 1], x, leq);
    if k < |Ties(s[..n - 1], x, leq)| { p := TiePosition(s, x, leq, n - 1, k); } else { p := n - 1; }
  }

  lemma {:induction false} TiesGrow<T>(s: seq<T>, x: T, leq: (T, T) -> bool, m: nat, n: nat)
    requires m <= n <= |s|
    ensures |Ties(s[..m], x, leq)| <= |Ties(s[..n], x, leq)|
    decreases n
  {
    if m < n {
      assert s[..n] == s[..n - 1] + [s[n - 1]];
      TiesAppend(s[..n - 1], s[n - 1], x, leq);
      TiesGrow(s, x, leq, m, n - 1);
    }
  }

  /** Of two elements that tie, the one that comes first after sorting came first before. */
  lemma {:induction false} StablePositions<T(!new)>(s: seq<T>, leq: (T, T) -> bool, i: nat, j: nat)
    returns (a: nat, b: nat)
    requires TotalPreorder(leq) && i < j < |Sort(s, leq)|
    requires leq(Sort(s, leq)[i], Sort(s, leq)[j]) && leq(Sort(s, leq)[j], Sort(s, leq)[i])
    ensures a < b < |s| && s[a] == Sort(s, leq)[i] && s[b] == Sort(s, leq)[j]
  {
    hide Sort, Ties, TotalPreorder;
    var t := Sort(s, leq);
    var x := t[i];
    SortStable(s, x, leq);
    Comparable(leq, x, x);
    TieRank(t, x, leq, |t|, i);
    TieRank(t, x, leq, |t|, j);
    TieRank(t, x, leq, j, i);
    assert t[..|t|] == t && s[..|s|] == s;
    a := TiePosition(s, x, leq, |s|, |Ties(t[..i], x, leq)|);
    b := TiePosition(s, x, leq, |s|, |Ties(t[..j], x, leq)|);
    if b <= a { TiesGrow(s, x, leq, b, a); }
  }
}
