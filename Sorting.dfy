/** Sorting a sequence with a comparator in the style of Array.prototype.sort:
    cmp(a, b) <= 0 lets a stand before b. The contracts promise a sorted permutation;
    the definition is a stable insertion sort, so elements the comparator ties keep
    their input order. */
module Sorting {

  /** The comparator orders every pair and its "may come first" relation is transitive. */
  ghost predicate IsTotalPreorder<T(!new)>(cmp: (T, T) -> int)
  {
    (forall a, b :: cmp(a, b) <= 0 || cmp(b, a) <= 0) &&
    (forall a, b, c :: cmp(a, b) <= 0 && cmp(b, c) <= 0 ==> cmp(a, c) <= 0)
  }

  ghost predicate SortedBy<T>(s: seq<T>, cmp: (T, T) -> int)
  {
    forall i, j :: 0 <= i < j < |s| ==> cmp(s[i], s[j]) <= 0
  }

  /** Inserts x before the first element it may precede. */
  function Insert<T>(x: T, s: seq<T>, cmp: (T, T) -> int): (r: seq<T>)
    ensures multiset(r) == multiset(s) + multiset{x}
    ensures |r| == |s| + 1
  {
    if s == [] then [x]
    else if cmp(x, s[0]) <= 0 then [x] + s
    else
      assert s == [s[0]] + s[1..];
      [s[0]] + Insert(x, s[1..], cmp)
  }

  function SortBy<T>(s: seq<T>, cmp: (T, T) -> int): (r: seq<T>)
    ensures multiset(r) == multiset(s)
    ensures |r| == |s|
  {
    if s == [] then []
    else
      assert s == [s[0]] + s[1..];
      Insert(s[0], SortBy(s[1..], cmp), cmp)
  }

  /** A sorted sequence stays sorted under a new head that may precede all of it. */
  lemma ConsSorted<T>(h: T, r: seq<T>, cmp: (T, T) -> int)
    requires SortedBy(r, cmp)
    requires forall j :: 0 <= j < |r| ==> cmp(h, r[j]) <= 0
    ensures SortedBy([h] + r, cmp)
  {
    var out := [h] + r;
    forall i, j | 0 <= i < j < |out| ensures cmp(out[i], out[j]) <= 0 {
      assert out[j] == r[j - 1];
      if i > 0 {
        assert out[i] == r[i - 1];
      }
    }
  }

  lemma TailSorted<T>(s: seq<T>, cmp: (T, T) -> int)
    requires s != [] && SortedBy(s, cmp)
    ensures SortedBy(s[1..], cmp)
    ensures forall j :: 0 <= j < |s[1..]| ==> cmp(s[0], s[1..][j]) <= 0
  {
    var tail := s[1..];
    forall i, j | 0 <= i < j < |tail| ensures cmp(tail[i], tail[j]) <= 0 {
      assert tail[i] == s[i + 1] && tail[j] == s[j + 1];
    }
    forall j | 0 <= j < |tail| ensures cmp(s[0], tail[j]) <= 0 {
      assert tail[j] == s[j + 1];
    }
  }

  lemma {:induction false} InsertKeepsSorted<T(!new)>(x: T, s: seq<T>, cmp: (T, T) -> int)
    requires IsTotalPreorder(cmp) && SortedBy(s, cmp)
    ensures SortedBy(Insert(x, s, cmp), cmp)
  {
    if s == [] {
    } else if cmp(x, s[0]) <= 0 {
      forall j | 0 <= j < |s| ensures cmp(x, s[j]) <= 0 {
        if j > 0 {
          assert cmp(s[0], s[j]) <= 0;
        }
      }
      ConsSorted(x, s, cmp);
    } else {
      var tail := s[1..];
      TailSorted(s, cmp);
      InsertKeepsSorted(x, tail, cmp);
      var r := Insert(x, tail, cmp);
      assert cmp(s[0], x) <= 0;
      forall j | 0 <= j < |r| ensures cmp(s[0], r[j]) <= 0 {
        assert r[j] in multiset(r);
        if r[j] != x {
          assert r[j] in multiset(tail);
          var k :| 0 <= k < |tail| && tail[k] == r[j];
        }
      }
      ConsSorted(s[0], r, cmp);
    }
  }

  lemma {:induction false} SortBySorted<T(!new)>(s: seq<T>, cmp: (T, T) -> int)
    requires IsTotalPreorder(cmp)
    ensures SortedBy(SortBy(s, cmp), cmp)
  {
    if s != [] {
      SortBySorted(s[1..], cmp);
      InsertKeepsSorted(s[0], SortBy(s[1..], cmp), cmp);
    }
  }

  /** The projection f of every element, in order. */
  function Map<T, U>(s: seq<T>, f: T -> U): (r: seq<U>)
    ensures |r| == |s|
    ensures forall i :: 0 <= i < |s| ==> r[i] == f(s[i])
  {
    if s == [] then [] else [f(s[0])] + Map(s[1..], f)
  }

  lemma {:induction false} MapInsert<T, U>(x: T, s: seq<T>, cmp: (T, T) -> int, f: T -> U)
    ensures multiset(Map(Insert(x, s, cmp), f)) == multiset(Map(s, f)) + multiset{f(x)}
  {
    if s != [] {
      assert Map(s, f) == [f(s[0])] + Map(s[1..], f);
      if cmp(x, s[0]) > 0 {
        MapInsert(x, s[1..], cmp, f);
        assert Map(Insert(x, s, cmp), f) == [f(s[0])] + Map(Insert(x, s[1..], cmp), f);
      } else {
        assert Map(Insert(x, s, cmp), f) == [f(x)] + Map(s, f);
      }
    }
  }

  /** Sorting permutes whatever is projected from the elements as well. */
  lemma {:induction false} MapSortBy<T, U>(s: seq<T>, cmp: (T, T) -> int, f: T -> U)
    ensures multiset(Map(SortBy(s, cmp), f)) == multiset(Map(s, f))
  {
    if s != [] {
      MapSortBy(s[1..], cmp, f);
      MapInsert(s[0], SortBy(s[1..], cmp), cmp, f);
      assert Map(s, f) == [f(s[0])] + Map(s[1..], f);
    }
  }
}
