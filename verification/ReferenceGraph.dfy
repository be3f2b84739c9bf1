/** Reference graphs between store paths: walks, cycles, dependency-respecting orders,
    and the canonical order that takes the least ready path first. */
module ReferenceGraph {
  import opened Basics
  import opened Bytes

  /** Each node with the nodes that must come before it. */
  type Deps = map<Path, set<Path>>

  ghost predicate Closed(deps: Deps) {
    forall p :: p in deps ==> deps[p] <= deps.Keys
  }

  ghost predicate Follows(deps: Deps, p: Path, q: Path) {
    p in deps && q in deps[p]
  }

  ghost predicate Edge(deps: Deps, w: seq<Path>, i: nat) {
    i + 1 < |w| && Follows(deps, w[i], w[i + 1])
  }

  ghost predicate Walk(deps: Deps, w: seq<Path>) {
    forall i: nat :: i + 1 < |w| ==> Edge(deps, w, i)
  }

  ghost predicate IsCycle(deps: Deps, w: seq<Path>) {
    |w| >= 2 && w[0] == w[|w| - 1] && Walk(deps, w)
  }

  ghost predicate Cyclic(deps: Deps) {
    exists w :: IsCycle(deps, w)
  }

  /** Every dependency of an element comes strictly earlier. */
  ghost predicate Respects(deps: Deps, o: seq<Path>) {
    forall i :: 0 <= i < |o| ==> o[i] in deps && deps[o[i]] <= Elements(o[..i])
  }

  ghost predicate IsOrder(deps: Deps, o: seq<Path>) {
    Distinct(o) && Elements(o) == deps.Keys && Respects(deps, o)
  }

  // ----- counting -----

  /** Pigeonhole: a sequence longer than the set it draws from repeats an element. */
  lemma Pigeonhole<T>(s: seq<T>, within: set<T>) returns (i: nat, j: nat)
    requires Elements(s) <= within && |s| > |within|
    ensures i < j < |s| && s[i] == s[j]
  {
    if Distinct(s) {
      DistinctCardinality(s);
      SubsetCardinality(Elements(s), within);
      assert false;
    }
    i, j :| 0 <= i < j < |s| && s[i] == s[j];
  }

  // ----- a blocked set contains a cycle; an order excludes one -----

  ghost predicate WaitsFor(deps: Deps, p: Path, r: set<Path>) {
    exists q :: q in r && Follows(deps, p, q)
  }

  /** Every member of `r` waits for a member of `r`. */
  ghost predicate Blocked(deps: Deps, r: set<Path>) {
    r != {} && forall p :: p in r ==> WaitsFor(deps, p, r)
  }

  lemma {:induction false} BlockedWalk(deps: Deps, r: set<Path>, n: nat) returns (w: seq<Path>)
    requires Blocked(deps, r)
    ensures |w| == n + 1 && Elements(w) <= r && Walk(deps, w)
    decreases n
  {
    if n == 0 {
      var p :| p in r;
      w := [p];
    } else {
      var v := BlockedWalk(deps, r, n - 1);
      assert v[n - 1] in Elements(v);
      assert WaitsFor(deps, v[n - 1], r);
      var q :| q in r && Follows(deps, v[n - 1], q);
      w := v + [q];
      forall i: nat | i + 1 < |w| ensures Edge(deps, w, i) {
        if i + 1 < n { assert Edge(deps, v, i); }
      }
    }
  }

  lemma BlockedIsCyclic(deps: Deps, r: set<Path>)
    requires Blocked(deps, r)
    ensures Cyclic(deps)
  {
    var w := BlockedWalk(deps, r, |r|);
    var i, j := Pigeonhole(w, r);
    var c := w[i..j + 1];
    forall a: nat | a + 1 < |c| ensures Edge(deps, c, a) {
      assert Edge(deps, w, i + a);
    }
    assert IsCycle(deps, c);
  }

  /** Along a walk, positions in an order strictly fall. */
  lemma {:induction false} WalkDescends(deps: Deps, o: seq<Path>, w: seq<Path>, k: nat, at: nat) returns (pos: nat)
    requires IsOrder(deps, o) && Walk(deps, w) && k < |w|
    requires at < |o| && o[at] == w[0]
    ensures pos + k <= at && o[pos] == w[k]
    decreases k
  {
    if k == 0 {
      pos := at;
    } else {
      var prev := WalkDescends(deps, o, w, k - 1, at);
      assert Edge(deps, w, k - 1);
      assert w[k] in Elements(o[..prev]);
      pos :| 0 <= pos < prev && o[pos] == w[k];
    }
  }

  lemma OrderExcludesCycle(deps: Deps, o: seq<Path>)
    requires IsOrder(deps, o)
    ensures !Cyclic(deps)
  {
    if Cyclic(deps) {
      var w :| IsCycle(deps, w);
      assert Edge(deps, w, 0);
      assert w[0] in Elements(o);
      var at :| 0 <= at < |o| && o[at] == w[0];
      var pos := WalkDescends(deps, o, w, |w| - 1, at);
      assert false;
    }
  }

  // ----- the canonical order -----

  ghost predicate Unblocked(deps: Deps, p: Path, emitted: set<Path>) {
    p in deps && deps[p] <= emitted
  }

  ghost function Ready(deps: Deps, emitted: set<Path>): set<Path> {
    set p | p in deps && p !in emitted && Unblocked(deps, p, emitted)
  }

  /** Extends `o` by the least ready path until none is ready. */
  ghost function Plan(deps: Deps, o: seq<Path>): (r: seq<Path>)
    decreases |deps.Keys - Elements(o)|
  {
    var ready := Ready(deps, Elements(o));
    if ready == {} then o
    else
      var next := o + [Least(ready)];
      PlanDecreases(deps, o, Least(ready));
      Plan(deps, next)
  }

  lemma PlanDecreases(deps: Deps, o: seq<Path>, p: Path)
    requires p in deps && p !in Elements(o)
    ensures |deps.Keys - Elements(o + [p])| < |deps.Keys - Elements(o)|
  {
    ElementsAppend(o, p);
    assert deps.Keys - Elements(o) == (deps.Keys - Elements(o + [p])) + {p};
  }

  lemma {:induction false} PlanSound(deps: Deps, o: seq<Path>)
    requires Distinct(o) && Respects(deps, o)
    ensures var r := Plan(deps, o);
            o <= r && Distinct(r) && Respects(deps, r) && Ready(deps, Elements(r)) == {}
    decreases |deps.Keys - Elements(o)|
  {
    var ready := Ready(deps, Elements(o));
    if ready != {} {
      var p := Least(ready);
      PlanDecreases(deps, o, p);
      var next := o + [p];
      forall i | 0 <= i < |next| ensures next[i] in deps && deps[next[i]] <= Elements(next[..i]) {
        assert next[..i] == o[..i];
        if i == |o| { assert o[..i] == o; }
      }
      PlanSound(deps, next);
    }
  }

  /** The plan covers every node exactly when the graph has no cycle. */
  lemma PlanCompleteIffAcyclic(deps: Deps)
    requires Closed(deps)
    ensures var r := Plan(deps, []);
            && (|r| == |deps| <==> !Cyclic(deps))
            && (|r| == |deps| <==> IsOrder(deps, r))
  {
    PlanSound(deps, []);
    var r := Plan(deps, []);
    DistinctCardinality(r);
    assert Elements(r) <= deps.Keys && |deps| == |deps.Keys|;
    SubsetCardinality(Elements(r), deps.Keys);
    if |r| == |deps| {
      OrderExcludesCycle(deps, r);
    } else {
      var rest := deps.Keys - Elements(r);
      forall p | p in rest ensures WaitsFor(deps, p, rest) {
        assert p !in Ready(deps, Elements(r));
        var q :| q in deps[p] && q !in Elements(r);
        assert q in rest && Follows(deps, p, q);
      }
      BlockedIsCyclic(deps, rest);
    }
  }

  // ----- lexicographic minimality -----

  ghost predicate DiffersBelow(a: seq<Path>, b: seq<Path>, k: nat) {
    k < |a| && k < |b| && a[..k] == b[..k] && Less(a[k], b[k])
  }

  ghost predicate AtMost(a: seq<Path>, b: seq<Path>) {
    a == b || exists k :: DiffersBelow(a, b, k)
  }

  lemma NextIsReady(deps: Deps, o: seq<Path>, k: nat)
    requires IsOrder(deps, o) && k < |o|
    ensures o[k] in Ready(deps, Elements(o[..k]))
  {
    assert o[k] in Elements(o);
  }

  /** Taking the least ready path instead of another one gives a smaller order. */
  lemma PlanStepsBelow(deps: Deps, other: seq<Path>, k: nat)
    requires k < |other| && other[k] in Ready(deps, Elements(other[..k]))
    requires Least(Ready(deps, Elements(other[..k]))) != other[k]
    ensures DiffersBelow(Plan(deps, other[..k]), other, k)
  {
    var prefix := other[..k];
    var m := Least(Ready(deps, Elements(prefix)));
    var next := prefix + [m];
    PlanExtends(deps, next);
    var r := Plan(deps, next);
    assert r == Plan(deps, prefix);
    assert r[k] == next[k] == m;
    assert r[..k] == next[..k] == prefix;
  }

  /** No dependency-respecting order is lexicographically below the plan. */
  lemma {:induction false} PlanIsLeast(deps: Deps, other: seq<Path>, k: nat)
    requires IsOrder(deps, other) && k <= |other|
    ensures AtMost(Plan(deps, other[..k]), other)
    decreases |other| - k
  {
    var prefix := other[..k];
    var ready := Ready(deps, Elements(prefix));
    if k == |other| {
      assert prefix == other;
      assert ready == {};
    } else {
      NextIsReady(deps, other, k);
      if Least(ready) == other[k] {
        assert prefix + [other[k]] == other[..k + 1];
        PlanIsLeast(deps, other, k + 1);
      } else {
        PlanStepsBelow(deps, other, k);
      }
    }
  }

  lemma {:induction false} PlanExtends(deps: Deps, o: seq<Path>)
    ensures o <= Plan(deps, o)
    decreases |deps.Keys - Elements(o)|
  {
    var ready := Ready(deps, Elements(o));
    if ready != {} {
      PlanDecreases(deps, o, Least(ready));
      PlanExtends(deps, o + [Least(ready)]);
    }
  }

  lemma AtMostAntisymmetric(a: seq<Path>, b: seq<Path>)
    requires AtMost(a, b) && AtMost(b, a)
    ensures a == b
  {
    if a != b {
      var i: nat :| DiffersBelow(a, b, i);
      var j: nat :| DiffersBelow(b, a, j);
      if i < j { assert a[i] == b[..j][i] == b[i]; }
      if j < i { assert b[j] == a[..i][j] == a[j]; }
      if i == j { LessTransitive(a[i], b[i], a[i]); }
      LessIrreflexive(a[i]);
      LessIrreflexive(b[j]);
      assert false;
    }
  }
}
