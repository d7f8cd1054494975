/** Sorted sequences under any strict order: sorting without duplicates, and binary search. */
module Sorting {
  import opened Graph
  import opened Wrappers

  ghost predicate IsStrictOrder<T(!new)>(less: (T, T) -> bool) {
    && (forall x :: !less(x, x))
    && (forall x, y, z :: less(x, y) && less(y, z) ==> less(x, z))
    && (forall x, y :: x != y ==> less(x, y) || less(y, x))
  }

  ghost predicate Increasing<T(!new)>(less: (T, T) -> bool, s: seq<T>) {
    forall i, j :: 0 <= i < j < |s| ==> less(s[i], s[j])
  }

  /** Inserts `x` in its place, unless it is there already. */
  function Insert<T(==)>(less: (T, T) -> bool, x: T, s: seq<T>): seq<T> {
    if s == [] then [x]
    else if less(x, s[0]) then [x] + s
    else if x == s[0] then s
    else [s[0]] + Insert(less, x, s[1..])
  }

  /** Sorts and removes duplicates. */
  function SortDedup<T(==)>(less: (T, T) -> bool, s: seq<T>): seq<T> {
    if s == [] then [] else Insert(less, s[|s| - 1], SortDedup(less, s[..|s| - 1]))
  }

  lemma {:induction false} InsertSorts<T(!new)>(less: (T, T) -> bool, x: T, s: seq<T>)
    requires IsStrictOrder(less) && Increasing(less, s)
    ensures Increasing(less, Insert(less, x, s))
    ensures forall y :: y in Insert(less, x, s) <==> y == x || y in s
  {
    if s != [] && !less(x, s[0]) && x != s[0] {
      InsertSorts(less, x, s[1..]);
      var r := Insert(less, x, s[1..]);
      assert Increasing(less, [s[0]] + r) by {
        forall i | 0 <= i < |r| ensures less(s[0], r[i]) {
          assert r[i] in r;
        }
      }
    }
  }

  lemma {:induction false} SortDedupSorts<T(!new)>(less: (T, T) -> bool, s: seq<T>)
    requires IsStrictOrder(less)
    ensures Increasing(less, SortDedup(less, s))
    ensures forall y :: y in SortDedup(less, s) <==> y in s
  {
    if s != [] {
      var k := |s| - 1;
      SortDedupSorts(less, s[..k]);
      InsertSorts(less, s[k], SortDedup(less, s[..k]));
      assert s == s[..k] + [s[k]];
    }
  }

  lemma IncreasingIsDistinct<T(!new)>(less: (T, T) -> bool, s: seq<T>)
    requires IsStrictOrder(less) && Increasing(less, s)
    ensures Distinct(s)
  {
    forall i, j | 0 <= i < j < |s| ensures s[i] != s[j] {
      assert less(s[i], s[j]);
    }
  }

  /** Two increasing sequences of the same elements are the same. */
  lemma {:induction false} IncreasingIsUnique<T(!new)>(less: (T, T) -> bool, a: seq<T>, b: seq<T>)
    requires IsStrictOrder(less) && Increasing(less, a) && Increasing(less, b) && forall x :: x in a <==> x in b
    ensures a == b
  {
    if a == [] && b != [] {
      var x := AnyOf(b);
      assert false;
    } else if b == [] && a != [] {
      var x := AnyOf(a);
      assert false;
    } else if a != [] {
      var x, y := a[0], b[0];
      assert x in b && y in a;
      assert x == y;
      assert forall z :: z in a[1..] <==> z in b[1..] by {
        RestOf(less, a);
        RestOf(less, b);
      }
      IncreasingIsUnique(less, a[1..], b[1..]);
      assert a == [x] + a[1..] && b == [y] + b[1..];
    }
  }

  lemma AnyOf<T>(s: seq<T>) returns (x: T)
    requires s != []
    ensures x in s
  {
    x := s[0];
  }

  lemma RestOf<T(!new)>(less: (T, T) -> bool, s: seq<T>)
    requires IsStrictOrder(less) && Increasing(less, s) && s != []
    ensures forall z :: z in s[1..] <==> z in s && z != s[0]
  {
  }

  /** Where `x` stands in a sorted sequence. */
  method BinarySearch<T(==, !new)>(less: (T, T) -> bool, s: seq<T>, x: T) returns (i: Option<int>)
    requires IsStrictOrder(less) && Increasing(less, s)
    ensures i.Some? ==> 0 <= i.value < |s| && s[i.value] == x
    ensures i.None? <==> x !in s
  {
    var lo, hi := 0, |s|;
    while lo < hi
      invariant 0 <= lo <= hi <= |s|
      invariant forall k :: 0 <= k < lo ==> less(s[k], x)
      invariant forall k :: hi <= k < |s| ==> less(x, s[k])
    {
      var mid := (lo + hi) / 2;
      if s[mid] == x {
        return Some(mid);
      } else if less(s[mid], x) {
        lo := mid + 1;
      } else {
        hi := mid;
      }
    }
    i := None;
  }
}
