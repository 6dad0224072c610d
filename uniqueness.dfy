/** Facts about sequences without repeated elements: the lists the generator
    builds from hash sets and the member lists of continents. */
module Uniqueness {

  /** No element occurs twice in `s`. */
  predicate NoDuplicates<T(==)>(s: seq<T>) {
    forall i, j :: 0 <= i < j < |s| ==> s[i] != s[j]
  }

  /** The set of elements of `s`. */
  function Elements<T>(s: seq<T>): set<T> {
    set x | x in s
  }

  /** Appending an element that is not yet present keeps a list duplicate-free. */
  lemma AppendFresh<T>(s: seq<T>, x: T)
    requires NoDuplicates(s) && x !in s
    ensures NoDuplicates(s + [x])
  {
  }

  /** In a duplicate-free list every present element occurs exactly once. */
  lemma {:induction false} Multiplicity<T>(s: seq<T>, x: T)
    requires NoDuplicates(s)
    ensures multiset(s)[x] == if x in s then 1 else 0
  {
    if s != [] {
      var n := |s| - 1;
      assert s == s[..n] + [s[n]];
      Multiplicity(s[..n], x);
      assert x in s <==> x in s[..n] || x == s[n];
    }
  }

  /** A duplicate-free list has as many elements as its element set. */
  lemma {:induction false} DistinctCardinality<T>(s: seq<T>)
    requires NoDuplicates(s)
    ensures |Elements(s)| == |s|
  {
    if s != [] {
      var n := |s| - 1;
      assert s == s[..n] + [s[n]];
      DistinctCardinality(s[..n]);
      assert Elements(s) == Elements(s[..n]) + {s[n]};
      assert s[n] !in Elements(s[..n]);
    }
  }

  /** Two duplicate-free lists with the same elements are permutations of each other. */
  lemma SameElementsSameMultiset<T>(s: seq<T>, t: seq<T>)
    requires NoDuplicates(s) && NoDuplicates(t)
    requires forall x :: x in s <==> x in t
    ensures multiset(s) == multiset(t)
  {
    forall x ensures multiset(s)[x] == multiset(t)[x] {
      Multiplicity(s, x);
      Multiplicity(t, x);
    }
  }

  /** Joining two duplicate-free lists with no element in common gives a duplicate-free list. */
  lemma ConcatDistinct<T>(s: seq<T>, t: seq<T>)
    requires NoDuplicates(s) && NoDuplicates(t)
    requires forall x :: x in s ==> x !in t
    ensures NoDuplicates(s + t)
  {
    forall i, j | 0 <= i < j < |s + t| ensures (s + t)[i] != (s + t)[j] {
      if j >= |s| && i < |s| {
        assert (s + t)[i] in s;
        assert (s + t)[j] in t;
      }
    }
  }

  /** A set holding exactly 0 .. n - 1 has n elements. */
  lemma {:induction false} RangeCardinality(s: set<int>, n: nat)
    requires forall k :: k in s <==> 0 <= k < n
    ensures |s| == n
  {
    if n == 0 {
      assert forall k | k in s :: 0 <= k < n;
      assert s == {};
    } else {
      var smaller := s - {n - 1};
      assert forall k :: k in smaller <==> 0 <= k < n - 1;
      RangeCardinality(smaller, n - 1);
      assert s == smaller + {n - 1};
    }
  }

  /** A subset is no larger than its superset. */
  lemma {:induction false} SubsetCardinality<T>(a: set<T>, b: set<T>)
    requires a <= b
    ensures |a| <= |b|
  {
    if a != {} {
      var x :| x in a;
      SubsetCardinality(a - {x}, b - {x});
    }
  }
}
