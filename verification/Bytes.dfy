/** Bytes, byte strings and their order.  `Less` is the order of `Ord` on `String`
    and `Vec<u8>`: bytewise, a proper prefix first. */
module Bytes {
  type byte = x: int | 0 <= x < 256
  type Path = seq<byte>
  type Strings = seq<seq<byte>>

  predicate Less(a: Path, b: Path)
    decreases |a|
  {
    |b| > 0 && (|a| == 0 || a[0] < b[0] || (a[0] == b[0] && Less(a[1..], b[1..])))
  }

  /** `a` ends, or has the smaller byte, where the two part. */
  ghost predicate PartsBelow(a: Path, b: Path, k: nat) {
    k <= |a| && k < |b| && a[..k] == b[..k] && (k == |a| || a[k] < b[k])
  }

  lemma SameStart(a: Path, b: Path, k: nat)
    requires PartsBelow(a, b, k) && k > 0
    ensures a[0] == b[0]
  {
    assert a[..k][0] == b[..k][0];
  }

  /** The order in terms of the first difference. */
  lemma {:induction false} LessIff(a: Path, b: Path)
    ensures Less(a, b) <==> exists k: nat :: PartsBelow(a, b, k)
    decreases |a|
  {
    if |a| == 0 {
      if |b| > 0 { assert PartsBelow(a, b, 0); }
    } else if |b| > 0 && a[0] == b[0] {
      LessIff(a[1..], b[1..]);
      if k: nat :| PartsBelow(a[1..], b[1..], k) {
        assert a[..k + 1] == [a[0]] + a[1..][..k] && b[..k + 1] == [b[0]] + b[1..][..k];
        assert PartsBelow(a, b, k + 1);
      }
      if k: nat :| PartsBelow(a, b, k) {
        assert a[1..][..k - 1] == a[..k][1..] && b[1..][..k - 1] == b[..k][1..];
        assert PartsBelow(a[1..], b[1..], k - 1);
      }
    } else if |b| > 0 {
      if a[0] < b[0] { assert PartsBelow(a, b, 0); }
      if k: nat :| PartsBelow(a, b, k) && k > 0 {
        SameStart(a, b, k);
      }
    }
  }

  lemma {:induction false} LessIrreflexive(a: Path)
    ensures !Less(a, a)
    decreases |a|
  {
    if |a| > 0 { LessIrreflexive(a[1..]); }
  }

  lemma {:induction false} LessTransitive(a: Path, b: Path, c: Path)
    requires Less(a, b) && Less(b, c)
    ensures Less(a, c)
    decreases |a|
  {
    if |a| > 0 && a[0] == b[0] == c[0] { LessTransitive(a[1..], b[1..], c[1..]); }
  }

  lemma {:induction false} LessTotal(a: Path, b: Path)
    ensures a == b || Less(a, b) || Less(b, a)
    decreases |a|
  {
    if |a| > 0 && |b| > 0 && a[0] == b[0] {
      LessTotal(a[1..], b[1..]);
      if a[1..] == b[1..] {
        assert a == [a[0]] + a[1..] == [b[0]] + b[1..] == b;
      }
    }
  }

  ghost predicate IsLeast(p: Path, s: set<Path>) {
    p in s && forall q :: q in s && q != p ==> Less(p, q)
  }

  lemma LeastUnique(p: Path, q: Path, s: set<Path>)
    requires IsLeast(p, s) && IsLeast(q, s)
    ensures p == q
  {
    if p != q {
      LessTransitive(p, q, p);
      LessIrreflexive(p);
    }
  }

  lemma {:induction false} LeastExists(s: set<Path>)
    requires s != {}
    ensures exists p :: IsLeast(p, s)
    decreases |s|
  {
    var x :| x in s;
    var t := s - {x};
    if t == {} {
      assert s == {x};
      assert IsLeast(x, s);
    } else {
      LeastExists(t);
      var m :| IsLeast(m, t);
      LessTotal(x, m);
      if Less(x, m) {
        forall q | q in s && q != x ensures Less(x, q) {
          if q != m { LessTransitive(x, m, q); }
        }
        assert IsLeast(x, s);
      } else {
        assert IsLeast(m, s);
      }
    }
  }

  /** `BTreeSet::first`: the least element. */
  ghost function Least(s: set<Path>): (p: Path)
    requires s != {}
    ensures IsLeast(p, s)
  {
    LeastExists(s);
    var p :| IsLeast(p, s);
    p
  }

  /** `BTreeSet::pop_first`: removes and returns the least element. */
  method PopFirst(s: set<Path>) returns (p: Path, rest: set<Path>)
    requires s != {}
    ensures p == Least(s) && rest == s - {p}
  {
    p :| p in s;
    var todo := s - {p};
    while todo != {}
      invariant p in s && p !in todo && todo <= s
      invariant forall q :: q in s && q !in todo && q != p ==> Less(p, q)
      decreases |todo|
    {
      var q :| q in todo;
      todo := todo - {q};
      LessTotal(p, q);
      if Less(q, p) {
        forall r | r in s && r !in todo && r != q ensures Less(q, r) {
          if r != p { LessTransitive(q, p, r); }
        }
        p := q;
      }
    }
    assert IsLeast(p, s);
    LeastUnique(p, Least(s), s);
    rest := s - {p};
  }
}
