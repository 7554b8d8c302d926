/** Sequence vocabulary shared by the service models. */
module Sequences {

  datatype Option<+T> = None | Some(value: T)

  function Min(a: int, b: int): int { if a <= b then a else b }

  function Max(a: int, b: int): int { if a >= b then a else b }

  function Last<T>(s: seq<T>): T
    requires s != []
  {
    s[|s| - 1]
  }

  lemma {:induction false} MulGrows(a: nat, b: nat, c: nat)
    requires a <= b
    ensures a * c <= b * c
  {
  }

  /** Length of Python's `s[:k]` for a sequence of length `n`. */
  function PrefixLength(n: nat, k: int): nat {
    if k >= 0 then Min(n, k) else Max(0, n + k)
  }

  function Flatten<T>(s: seq<seq<T>>): seq<T> {
    if s == [] then [] else s[0] + Flatten(s[1..])
  }

  lemma {:induction false} FlattenConcat<T>(a: seq<seq<T>>, b: seq<seq<T>>)
    ensures Flatten(a + b) == Flatten(a) + Flatten(b)
  {
    if a == [] {
      assert a + b == b;
    } else {
      assert (a + b)[1..] == a[1..] + b;
      FlattenConcat(a[1..], b);
    }
  }

  lemma {:induction false} FlattenSingle<T>(s: seq<T>)
    ensures Flatten([s]) == s
  {
    assert Flatten([s]) == s + Flatten<T>([]);
  }

  lemma {:induction false} FlattenMember<T>(parts: seq<seq<T>>, j: nat, i: nat)
    requires j < |parts| && i < |parts[j]|
    ensures parts[j][i] in Flatten(parts)
  {
    if j > 0 { FlattenMember(parts[1..], j - 1, i); }
  }

  lemma {:induction false} AppendToPrefix<T>(before: seq<T>, s: seq<T>, i: nat)
    requires i < |s|
    ensures before + s[..i] + [s[i]] == before + s[..i + 1]
  {
  }

  lemma {:induction false} SliceAppend<T>(s: seq<T>, lo: nat, i: nat)
    requires lo <= i < |s|
    ensures s[lo..i] + [s[i]] == s[lo..i + 1]
  {
  }

  lemma {:induction false} DropOfSlice<T>(s: seq<T>, lo: nat, hi: nat, r: nat)
    requires lo <= hi <= |s| && r <= hi - lo
    ensures s[lo..hi][r..] == s[lo + r..hi]
  {
  }

  predicate StrictlyIncreasing(s: seq<int>) {
    forall i, j :: 0 <= i < j < |s| ==> s[i] < s[j]
  }

  /** Python's `sorted(set(s))`. */
  function SortedSet(s: seq<int>): (r: seq<int>)
    ensures StrictlyIncreasing(r)
    ensures forall x :: x in r <==> x in s
    ensures forall k :: 0 <= k < |r| ==> r[k] in s
  {
    if s == [] then [] else
      assert s == s[..|s| - 1] + [Last(s)];
      InsertDistinct(SortedSet(s[..|s| - 1]), Last(s))
  }

  function InsertDistinct(s: seq<int>, x: int): (r: seq<int>)
    requires StrictlyIncreasing(s)
    ensures StrictlyIncreasing(r)
    ensures forall y :: y in r <==> y in s || y == x
  {
    if s == [] || x < s[0] then [x] + s
    else if x == s[0] then s
    else
      assert s == [s[0]] + s[1..];
      var tail := InsertDistinct(s[1..], x);
      assert forall k :: 0 <= k < |tail| ==> tail[k] in tail;
      [s[0]] + tail
  }

  /** A set of integers has one strictly increasing listing. */
  lemma {:induction false} IncreasingListingUnique(a: seq<int>, b: seq<int>)
    requires StrictlyIncreasing(a) && StrictlyIncreasing(b)
    requires forall x :: x in a <==> x in b
    ensures a == b
  {
    assert forall k :: 0 <= k < |b| ==> b[k] in b;
    if b != [] { assert b[0] in a; }
    if a != [] {
      assert a[0] in a;
      assert b[0] in b;
      assert a[0] == b[0];
      var a', b' := a[1..], b[1..];
      assert a == [a[0]] + a' && b == [b[0]] + b';
      assert forall x :: x in a' <==> x in a && x != a[0];
      assert forall x :: x in b' <==> x in b && x != b[0];
      IncreasingListingUnique(a', b');
      assert a == [b[0]] + b';
    }
  }
}
