/**
 * The stable sort behind Stream.sorted() for a Comparable type, given its
 * compareTo as a function; insertion keeps equal elements in encounter order.
 */
module Sorting {

  /** On the elements of s, cmp respects the sign contract of Comparable.compareTo. */
  ghost predicate AntisymmetricOn<T>(s: seq<T>, cmp: (T, T) -> int) {
    forall a, b :: a in s && b in s ==> cmp(a, b) == -cmp(b, a)
  }

  /**
   * On the elements of s, two elements that compare equal to a third compare
   * equal to each other, as the Comparable contract demands.
   */
  ghost predicate ZeroConsistentOn<T>(s: seq<T>, cmp: (T, T) -> int) {
    forall a, b, c :: a in s && b in s && c in s && cmp(a, c) == 0 && cmp(b, c) == 0 ==> cmp(a, b) == 0
  }

  /** The elements of s that compare equal to y, in their order in s. */
  ghost function EqualClass<T>(s: seq<T>, y: T, cmp: (T, T) -> int): seq<T>
    decreases |s|
  {
    if s == [] then [] else (if cmp(s[0], y) == 0 then [s[0]] else []) + EqualClass(s[1..], y, cmp)
  }

  /** r keeps every group of elements of s that compare equal in the order the group has in s. */
  ghost predicate Stable<T>(s: seq<T>, r: seq<T>, cmp: (T, T) -> int) {
    forall y :: y in s ==> EqualClass(r, y, cmp) == EqualClass(s, y, cmp)
  }

  /** Each element compares at most equal to its successor. */
  ghost predicate SortedBy<T>(s: seq<T>, cmp: (T, T) -> int) {
    forall i :: 0 <= i < |s| - 1 ==> cmp(s[i], s[i + 1]) <= 0
  }

  /**
   * Inserts x into sorted s in front of the first element that does not compare
   * less than x, so x stays ahead of the elements equal to it.
   */
  function Insert<T>(x: T, s: seq<T>, cmp: (T, T) -> int): (r: seq<T>)
    requires AntisymmetricOn([x] + s, cmp) && SortedBy(s, cmp)
    ensures SortedBy(r, cmp)
    ensures multiset(r) == multiset(s) + multiset{x}
    ensures |r| == |s| + 1
    ensures r[0] == x || (s != [] && r[0] == s[0])
    ensures ZeroConsistentOn([x] + s, cmp) ==> Stable([x] + s, r, cmp)
    decreases |s|
  {
    if s == [] then [x]
    else if cmp(x, s[0]) <= 0 then
      assert SortedBy([x] + s, cmp) by { ConsSorted(x, s, cmp); }
      [x] + s
    else
      InsertTailReady(x, s, cmp);
      var rest := Insert(x, s[1..], cmp);
      InsertHead(x, s, rest, cmp);
      InsertHeadStable(x, s, rest, cmp);
      [s[0]] + rest
  }

  /** When x goes after the head of s, the recursive call's preconditions hold. */
  lemma InsertTailReady<T>(x: T, s: seq<T>, cmp: (T, T) -> int)
    requires AntisymmetricOn([x] + s, cmp) && SortedBy(s, cmp)
    requires s != [] && cmp(x, s[0]) > 0
    ensures AntisymmetricOn([x] + s[1..], cmp) && SortedBy(s[1..], cmp)
    ensures cmp(s[0], x) < 0
  {
    var tail := s[1..];
    forall i | 0 <= i < |tail| - 1 ensures cmp(tail[i], tail[i + 1]) <= 0 {
      assert tail[i] == s[i + 1] && tail[i + 1] == s[i + 2];
    }
    forall a | a in [x] + tail ensures a in [x] + s { }
    assert s[0] in [x] + s && x in [x] + s;
  }

  /** Putting the head of s back in front of the insertion into the tail. */
  lemma InsertHead<T>(x: T, s: seq<T>, rest: seq<T>, cmp: (T, T) -> int)
    requires SortedBy(s, cmp) && s != [] && cmp(s[0], x) <= 0
    requires SortedBy(rest, cmp) && multiset(rest) == multiset(s[1..]) + multiset{x}
    requires |rest| == |s| && (rest[0] == x || (|s| > 1 && rest[0] == s[1]))
    ensures SortedBy([s[0]] + rest, cmp)
    ensures multiset([s[0]] + rest) == multiset(s) + multiset{x}
  {
    assert s == [s[0]] + s[1..];
    ConsSorted(s[0], rest, cmp);
  }

  /**
   * Putting the head of s back in front keeps the order of equal elements: x
   * compares greater than s[0], so the two never fall in the same class.
   */
  lemma InsertHeadStable<T>(x: T, s: seq<T>, rest: seq<T>, cmp: (T, T) -> int)
    requires s != [] && cmp(x, s[0]) > 0 && AntisymmetricOn([x] + s, cmp)
    requires multiset(rest) == multiset(s[1..]) + multiset{x}
    requires ZeroConsistentOn([x] + s[1..], cmp) ==> Stable([x] + s[1..], rest, cmp)
    ensures ZeroConsistentOn([x] + s, cmp) ==> Stable([x] + s, [s[0]] + rest, cmp)
  {
    var w, u := [x] + s, [x] + s[1..];
    if ZeroConsistentOn(w, cmp) {
      assert forall a :: a in u ==> a in w;
      assert multiset(rest) == multiset(u);
      forall y | y in w ensures EqualClass([s[0]] + rest, y, cmp) == EqualClass(w, y, cmp) {
        StableAt(u, rest, w, cmp, y);
        assert ([s[0]] + rest)[1..] == rest;
        assert w[1..] == s && u[1..] == s[1..];
        assert s[0] in w;
        assert cmp(x, y) != 0 || cmp(s[0], y) != 0;
      }
    }
  }

  /** Putting y in front of a sorted sequence keeps it sorted when y compares at most equal to its head. */
  lemma ConsSorted<T>(y: T, s: seq<T>, cmp: (T, T) -> int)
    requires SortedBy(s, cmp) && (s != [] ==> cmp(y, s[0]) <= 0)
    ensures SortedBy([y] + s, cmp)
  {
    var r := [y] + s;
    forall i | 0 <= i < |r| - 1 ensures cmp(r[i], r[i + 1]) <= 0 {
      if i > 0 { assert r[i] == s[i - 1] && r[i + 1] == s[i]; }
    }
  }

  /**
   * Stream.sorted(): a stable insertion sort. The result is a sorted permutation
   * of s, and elements that compare equal keep their order in s.
   */
  function SortBy<T>(s: seq<T>, cmp: (T, T) -> int): (r: seq<T>)
    requires AntisymmetricOn(s, cmp)
    ensures SortedBy(r, cmp)
    ensures multiset(r) == multiset(s)
    ensures |r| == |s|
    ensures ZeroConsistentOn(s, cmp) ==> Stable(s, r, cmp)
  {
    if s == [] then []
    else
      TailAntisymmetric(s, cmp);
      var sorted := SortBy(s[1..], cmp);
      HeadAntisymmetric(s, sorted, cmp);
      assert s == [s[0]] + s[1..];
      var r := Insert(s[0], sorted, cmp);
      SortedStable(s, sorted, r, cmp);
      r
  }

  /** Stability of the tail's sort carries over to the insertion of the head. */
  lemma SortedStable<T>(s: seq<T>, sorted: seq<T>, r: seq<T>, cmp: (T, T) -> int)
    requires s != [] && AntisymmetricOn(s, cmp) && multiset(sorted) == multiset(s[1..])
    requires ZeroConsistentOn(s[1..], cmp) ==> Stable(s[1..], sorted, cmp)
    requires ZeroConsistentOn([s[0]] + sorted, cmp) ==> Stable([s[0]] + sorted, r, cmp)
    ensures ZeroConsistentOn(s, cmp) ==> Stable(s, r, cmp)
  {
    if ZeroConsistentOn(s, cmp) {
      var tail, front := s[1..], [s[0]] + sorted;
      assert forall a :: a in tail ==> a in s;
      ConsistentWithin(tail, s, cmp);
      forall a | a in front ensures a in s {
        if a != s[0] { assert a in multiset(sorted); assert a in tail; }
      }
      ConsistentWithin(front, s, cmp);
      forall y | y in s ensures EqualClass(r, y, cmp) == EqualClass(s, y, cmp) {
        assert y in multiset(front);
        StableAt(tail, sorted, s, cmp, y);
        assert front[1..] == sorted;
      }
    }
  }

  /** Consistency on w holds on every sequence of elements of w. */
  lemma ConsistentWithin<T>(u: seq<T>, w: seq<T>, cmp: (T, T) -> int)
    requires (forall a :: a in u ==> a in w) && ZeroConsistentOn(w, cmp)
    ensures ZeroConsistentOn(u, cmp)
  {
  }

  /**
   * Stability on the elements of u extends to any y the comparator is consistent
   * with: y's class in u is empty or the class of one of u's elements.
   */
  lemma StableAt<T>(u: seq<T>, r: seq<T>, w: seq<T>, cmp: (T, T) -> int, y: T)
    requires multiset(r) == multiset(u) && Stable(u, r, cmp)
    requires (forall a :: a in u ==> a in w) && y in w
    requires ZeroConsistentOn(w, cmp) && AntisymmetricOn(w, cmp)
    ensures EqualClass(r, y, cmp) == EqualClass(u, y, cmp)
  {
    assert forall a :: a in r ==> a in multiset(u);
    if z :| z in u && cmp(z, y) == 0 {
      forall a | a in u ensures cmp(a, y) == 0 <==> cmp(a, z) == 0 {
        assert a in w && z in w;
      }
      forall a | a in r ensures cmp(a, y) == 0 <==> cmp(a, z) == 0 {
        assert a in u && a in w && z in w;
      }
      EqualClassCongruent(u, y, z, cmp);
      EqualClassCongruent(r, y, z, cmp);
    } else {
      EqualClassEmpty(u, y, cmp);
      EqualClassEmpty(r, y, cmp);
    }
  }

  /** Two elements with the same equal elements in s have the same class in s. */
  lemma {:induction false} EqualClassCongruent<T>(s: seq<T>, y: T, z: T, cmp: (T, T) -> int)
    requires forall a :: a in s ==> (cmp(a, y) == 0 <==> cmp(a, z) == 0)
    ensures EqualClass(s, y, cmp) == EqualClass(s, z, cmp)
    decreases |s|
  {
    if s != [] {
      assert forall a :: a in s[1..] ==> a in s;
      EqualClassCongruent(s[1..], y, z, cmp);
    }
  }

  /** An element that no element of s compares equal to has an empty class. */
  lemma {:induction false} EqualClassEmpty<T>(s: seq<T>, y: T, cmp: (T, T) -> int)
    requires forall a :: a in s ==> cmp(a, y) != 0
    ensures EqualClass(s, y, cmp) == []
    decreases |s|
  {
    if s != [] {
      assert forall a :: a in s[1..] ==> a in s;
      EqualClassEmpty(s[1..], y, cmp);
    }
  }

  /** The tail of s inherits the sign contract. */
  lemma TailAntisymmetric<T>(s: seq<T>, cmp: (T, T) -> int)
    requires AntisymmetricOn(s, cmp) && s != []
    ensures AntisymmetricOn(s[1..], cmp)
  {
    forall a | a in s[1..] ensures a in s { }
  }

  /** The head of s and a permutation of its tail keep the sign contract. */
  lemma HeadAntisymmetric<T>(s: seq<T>, sorted: seq<T>, cmp: (T, T) -> int)
    requires AntisymmetricOn(s, cmp) && s != [] && multiset(sorted) == multiset(s[1..])
    ensures AntisymmetricOn([s[0]] + sorted, cmp)
  {
    forall a | a in [s[0]] + sorted ensures a in s {
      if a != s[0] {
        assert a in multiset(sorted);
        assert a in s[1..];
      }
    }
  }
}
