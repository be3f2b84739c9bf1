/** Results, options, and sequences as collections. */
module Basics {
  datatype Result<+T> = Success(value: T) | Failure
  datatype Option<+T> = None | Some(value: T)

  function Elements<T>(s: seq<T>): set<T> {
    set x | x in s
  }

  ghost predicate Distinct<T>(s: seq<T>) {
    forall i, j :: 0 <= i < j < |s| ==> s[i] != s[j]
  }

  lemma DistinctAppend<T>(s: seq<T>, x: T)
    requires Distinct(s) && x !in s
    ensures Distinct(s + [x])
  {
    var t := s + [x];
    forall i, j | 0 <= i < j < |t| ensures t[i] != t[j] {
      assert t[i] == s[i];
    }
  }

  /** All but the element at `i`. */
  function Without<T>(s: seq<T>, i: nat): seq<T>
    requires i < |s|
  {
    s[..i] + s[i + 1..]
  }

  lemma SplitsAt<T>(s: seq<T>, i: nat)
    requires i < |s|
    ensures s == s[..i] + ([s[i]] + s[i + 1..])
  {
  }

  lemma WithoutElements<T>(s: seq<T>, i: nat, x: T)
    requires i < |s|
    ensures x in Without(s, i) ==> x in s
    ensures x in s && x != s[i] ==> x in Without(s, i)
    ensures Distinct(s) ==> s[i] !in Without(s, i)
  {
    var r := Without(s, i);
    if x in s && x != s[i] {
      var k :| 0 <= k < |s| && s[k] == x;
      assert r[if k < i then k else k - 1] == x;
    }
    assert forall k :: 0 <= k < |r| ==> r[k] == s[if k < i then k else k + 1];
  }

  lemma WithoutMultiset<T>(s: seq<T>, i: nat)
    requires i < |s|
    ensures multiset(s) == multiset(Without(s, i)) + multiset{s[i]}
  {
    assert s == s[..i] + [s[i]] + s[i + 1..];
  }

  lemma ElementsAppend<T>(s: seq<T>, x: T)
    ensures Elements(s + [x]) == Elements(s) + {x}
  {
  }

  lemma OneMore<T>(a: set<T>, x: T)
    ensures |a + {x}| == |a| + if x in a then 0 else 1
  {
    if x in a { assert a + {x} == a; }
  }

  lemma {:induction false} DistinctCardinality<T>(s: seq<T>)
    requires Distinct(s)
    ensures |Elements(s)| == |s|
  {
    if s != [] {
      var t, x := s[..|s| - 1], s[|s| - 1];
      assert s == t + [x] && x !in t;
      DistinctCardinality(t);
      ElementsAppend(t, x);
      OneMore(Elements(t), x);
    }
  }

  lemma {:induction false} CardinalityDistinct<T>(s: seq<T>)
    ensures |Elements(s)| <= |s| && (|Elements(s)| == |s| ==> Distinct(s))
  {
    if s != [] {
      var t, x := s[..|s| - 1], s[|s| - 1];
      assert s == t + [x];
      CardinalityDistinct(t);
      ElementsAppend(t, x);
      OneMore(Elements(t), x);
      if x !in t && Distinct(t) { DistinctAppend(t, x); }
    }
  }

  lemma SubsetCardinality<T>(a: set<T>, b: set<T>)
    requires a <= b
    ensures |a| <= |b| && (|a| == |b| <==> a == b)
    ensures a != b ==> b - a != {}
  {
    assert b == a + (b - a);
  }

  // ----- products -----

  lemma NextMultiple(n: int, k: int)
    ensures (n + 1) * k == n * k + k
  {
  }

  lemma MulMonotone(a: int, b: int, p: int)
    requires a <= b && p >= 0
    ensures a * p <= b * p
  {
  }

  lemma Regroup(a: int, b: int, c: int)
    ensures a * (b * c) == (a * b) * c
  {
  }

  lemma Distribute(a: int, b: int, c: int)
    ensures a * (b + c) == a * b + a * c
  {
  }
}
