/** Build outputs ordered for transfer by repeated scans of a pending list: the Nomad
    worker's `order_outputs_by_references` and the static SSH backend's
    `order_remote_outputs_by_references`. */
module OutputOrder {
  import opened Basics
  import opened Bytes
  import opened ReferenceGraph

  datatype Output = Output(name: Path, path: Path, references: seq<Path>)
  datatype Outcome = Ordered(outputs: seq<Output>) | ReferenceCycle

  function Paths(outputs: seq<Output>): set<Path> {
    set o | o in outputs :: o.path
  }

  /** Every reference is the output itself, not an expected path, or already emitted. */
  predicate Free(o: Output, expected: set<Path>, emitted: set<Path>) {
    forall r :: r in o.references ==> r == o.path || r !in expected || r in emitted
  }

  function FirstFree(pending: seq<Output>, expected: set<Path>, emitted: set<Path>): (i: nat)
    ensures i <= |pending|
    ensures forall j :: 0 <= j < i ==> !Free(pending[j], expected, emitted)
    ensures i < |pending| ==> Free(pending[i], expected, emitted)
  {
    if pending == [] || Free(pending[0], expected, emitted) then 0
    else 1 + FirstFree(pending[1..], expected, emitted)
  }

  ghost function Rescan(pending: seq<Output>, expected: set<Path>, ordered: seq<Output>): Outcome
    decreases |pending|
  {
    if pending == [] then Ordered(ordered)
    else
      var i := FirstFree(pending, expected, Paths(ordered));
      if i == |pending| then ReferenceCycle
      else Rescan(Without(pending, i), expected, ordered + [pending[i]])
  }

  lemma PathsAppend(s: seq<Output>, o: Output)
    ensures Paths(s + [o]) == Paths(s) + {o.path}
  {
    forall p | p in Paths(s) + {o.path} ensures p in Paths(s + [o]) {
      if p == o.path { assert o in s + [o]; }
      else {
        var x :| x in s && x.path == p;
        assert x in s + [o];
      }
    }
  }

  method FindFree(pending: seq<Output>, expected: set<Path>, emitted: set<Path>) returns (index: nat)
    ensures index == FirstFree(pending, expected, emitted)
  {
    index := 0;
    while index < |pending| && !Free(pending[index], expected, emitted)
      invariant index <= |pending|
      invariant FirstFree(pending, expected, emitted) == index + FirstFree(pending[index..], expected, emitted)
    {
      index := index + 1;
    }
  }

  method OrderOutputs(outputs: seq<Output>, expected: set<Path>) returns (r: Outcome)
    ensures r == Rescan(outputs, expected, [])
  {
    var pending, ordered := outputs, [];
    var emitted: set<Path> := {};
    while pending != []
      invariant emitted == Paths(ordered)
      invariant Rescan(pending, expected, ordered) == Rescan(outputs, expected, [])
      decreases |pending|
    {
      var index := FindFree(pending, expected, emitted);
      if index == |pending| {
        return ReferenceCycle;
      }
      var output := pending[index];
      pending := Without(pending, index);
      PathsAppend(ordered, output);
      emitted := emitted + {output.path};
      ordered := ordered + [output];
    }
    return Ordered(ordered);
  }

  /** The static SSH form expects exactly the paths it was given. */
  method OrderRemoteOutputs(outputs: seq<Output>) returns (r: Outcome)
    ensures r == Rescan(outputs, Paths(outputs), [])
  {
    r := OrderOutputs(outputs, Paths(outputs));
  }

  // ----- soundness -----

  /** Each expected reference of an output, itself aside, was emitted earlier. */
  ghost predicate Sequenced(expected: set<Path>, s: seq<Output>) {
    forall i :: 0 <= i < |s| ==> Free(s[i], expected, Paths(s[..i]))
  }

  lemma SequencedAppend(expected: set<Path>, s: seq<Output>, o: Output)
    requires Sequenced(expected, s) && Free(o, expected, Paths(s))
    ensures Sequenced(expected, s + [o])
  {
    forall i | 0 <= i < |s + [o]| ensures Free((s + [o])[i], expected, Paths((s + [o])[..i])) {
      assert (s + [o])[..i] == s[..i];
      assert s[..|s|] == s;
    }
  }

  /** A result is a permutation of the outputs, references first. */
  lemma {:induction false} RescanSound(pending: seq<Output>, expected: set<Path>, ordered: seq<Output>)
    requires Sequenced(expected, ordered)
    ensures var r := Rescan(pending, expected, ordered);
            r.Ordered? ==> multiset(r.outputs) == multiset(pending) + multiset(ordered) && Sequenced(expected, r.outputs)
    decreases |pending|
  {
    if pending != [] {
      var i := FirstFree(pending, expected, Paths(ordered));
      if i < |pending| {
        WithoutMultiset(pending, i);
        SequencedAppend(expected, ordered, pending[i]);
        RescanSound(Without(pending, i), expected, ordered + [pending[i]]);
      }
    }
  }

  /** Outputs already in order are left as they are. */
  lemma {:induction false} RescanStable(outputs: seq<Output>, expected: set<Path>, k: nat)
    requires Sequenced(expected, outputs) && k <= |outputs|
    ensures Rescan(outputs[k..], expected, outputs[..k]) == Ordered(outputs)
    decreases |outputs| - k
  {
    var pending, ordered := outputs[k..], outputs[..k];
    if k == |outputs| {
      assert pending == [] && ordered == outputs;
    } else {
      assert Free(pending[0], expected, Paths(ordered));
      assert FirstFree(pending, expected, Paths(ordered)) == 0;
      assert Without(pending, 0) == outputs[k + 1..];
      assert ordered + [pending[0]] == outputs[..k + 1];
      RescanStable(outputs, expected, k + 1);
    }
  }

  // ----- the least of all references-first permutations -----

  ghost predicate Positions(at: seq<nat>, n: nat) {
    forall k :: 0 <= k < |at| ==> at[k] < n
  }

  /** The outputs at the given positions, in that order. */
  ghost function Pick(outputs: seq<Output>, at: seq<nat>): (r: seq<Output>)
    requires Positions(at, |outputs|)
    ensures |r| == |at| && forall k :: 0 <= k < |at| ==> r[k] == outputs[at[k]]
  {
    seq(|at|, k requires 0 <= k < |at| => outputs[at[k]])
  }

  /** Every position once, in an order that puts references first. */
  ghost predicate Arrangement(outputs: seq<Output>, expected: set<Path>, at: seq<nat>) {
    Positions(at, |outputs|) && Distinct(at) && |at| == |outputs| && Sequenced(expected, Pick(outputs, at))
  }

  /** Equal, or smaller at the first difference. */
  ghost predicate NotAfter(p: seq<nat>, q: seq<nat>) {
    p == q || exists k :: DiffersDownAt(p, q, k)
  }

  ghost predicate DiffersDownAt(p: seq<nat>, q: seq<nat>, k: nat) {
    k < |p| && k < |q| && p[..k] == q[..k] && p[k] < q[k]
  }

  /** The rescans on positions. */
  ghost function Scan(outputs: seq<Output>, expected: set<Path>, pending: seq<nat>, ordered: seq<nat>): Option<seq<nat>>
    requires Positions(pending, |outputs|) && Positions(ordered, |outputs|)
    decreases |pending|
  {
    if pending == [] then Some(ordered)
    else
      var i := FirstFree(Pick(outputs, pending), expected, Paths(Pick(outputs, ordered)));
      if i == |pending| then None else Scan(outputs, expected, Without(pending, i), ordered + [pending[i]])
  }

  lemma PickMoves(outputs: seq<Output>, pending: seq<nat>, ordered: seq<nat>, i: nat)
    requires Positions(pending, |outputs|) && Positions(ordered, |outputs|) && i < |pending|
    ensures Positions(Without(pending, i), |outputs|) && Positions(ordered + [pending[i]], |outputs|)
    ensures Pick(outputs, Without(pending, i)) == Without(Pick(outputs, pending), i)
    ensures Pick(outputs, ordered + [pending[i]]) == Pick(outputs, ordered) + [Pick(outputs, pending)[i]]
  {
  }

  lemma {:induction false} ScanIsRescan(outputs: seq<Output>, expected: set<Path>, pending: seq<nat>, ordered: seq<nat>)
    requires Positions(pending, |outputs|) && Positions(ordered, |outputs|)
    ensures var r := Scan(outputs, expected, pending, ordered);
            && (r.Some? ==> Positions(r.value, |outputs|))
            && Rescan(Pick(outputs, pending), expected, Pick(outputs, ordered)) ==
               if r.Some? then Ordered(Pick(outputs, r.value)) else ReferenceCycle
    decreases |pending|
  {
    if pending != [] {
      var i := FirstFree(Pick(outputs, pending), expected, Paths(Pick(outputs, ordered)));
      if i < |pending| {
        PickMoves(outputs, pending, ordered, i);
        ScanIsRescan(outputs, expected, Without(pending, i), ordered + [pending[i]]);
      }
    }
  }

  ghost predicate Ascending(s: seq<nat>) {
    forall i, j :: 0 <= i < j < |s| ==> s[i] < s[j]
  }

  lemma AscendingWithout(s: seq<nat>, i: nat)
    requires Ascending(s) && i < |s|
    ensures Ascending(Without(s, i)) && Distinct(s)
  {
    var r := Without(s, i);
    assert forall k :: 0 <= k < |r| ==> r[k] == s[if k < i then k else k + 1];
  }

  /** A rescan under way: every position is pending, in ascending order, or ordered. */
  ghost predicate Underway(n: nat, pending: seq<nat>, ordered: seq<nat>) {
    && Positions(pending, n) && Positions(ordered, n) && Distinct(ordered) && |pending| + |ordered| == n
    && Ascending(pending)
    && (forall p: nat :: p < n ==> p in pending || p in ordered)
    && (forall p :: p in pending ==> p !in ordered)
  }

  lemma UnderwayMoves(n: nat, pending: seq<nat>, ordered: seq<nat>, i: nat)
    requires Underway(n, pending, ordered) && i < |pending|
    ensures Underway(n, Without(pending, i), ordered + [pending[i]])
  {
    DistinctAppend(ordered, pending[i]);
    AscendingWithout(pending, i);
    forall q: nat ensures q in Without(pending, i) <==> q in pending && q != pending[i] {
      WithoutElements(pending, i, q);
    }
  }

  /** Where an arrangement exists, its first position that is not yet ordered is free. */
  lemma SomeFree(outputs: seq<Output>, expected: set<Path>, pending: seq<nat>, ordered: seq<nat>, at: seq<nat>, k: nat)
    requires Underway(|outputs|, pending, ordered) && Arrangement(outputs, expected, at)
    requires k < |at| && at[k] in pending && forall j :: 0 <= j < k ==> at[j] in ordered
    ensures var i := FirstFree(Pick(outputs, pending), expected, Paths(Pick(outputs, ordered)));
            i < |pending| && pending[i] <= at[k]
  {
    var emitted := Paths(Pick(outputs, ordered));
    assert Free(Pick(outputs, at)[k], expected, Paths(Pick(outputs, at)[..k]));
    forall p | p in Paths(Pick(outputs, at)[..k]) ensures p in emitted {
      var j :| 0 <= j < k && Pick(outputs, at)[j].path == p;
      assert at[j] in ordered;
      var m :| 0 <= m < |ordered| && ordered[m] == at[j];
      assert Pick(outputs, ordered)[m] in Pick(outputs, ordered);
    }
    assert Free(outputs[at[k]], expected, emitted);
    var i := FirstFree(Pick(outputs, pending), expected, emitted);
    var m :| 0 <= m < |pending| && pending[m] == at[k];
    assert Free(Pick(outputs, pending)[m], expected, emitted);
    assert i <= m;
  }

  lemma FirstUnordered(at: seq<nat>, ordered: seq<nat>, p: nat) returns (k: nat)
    requires p in at && p !in ordered
    ensures k < |at| && at[k] !in ordered && forall j :: 0 <= j < k ==> at[j] in ordered
  {
    var m :| 0 <= m < |at| && at[m] == p;
    k := 0;
    while at[k] in ordered
      invariant k <= m && forall j :: 0 <= j < k ==> at[j] in ordered
      decreases m - k
    {
      k := k + 1;
    }
  }

  /** As many different positions as there are leave none out. */
  lemma CoversAll(at: seq<nat>, n: nat, p: nat)
    requires Positions(at, n) && Distinct(at) && |at| == n && p < n
    ensures p in at
  {
    var all: seq<nat> := seq(n, i => i);
    DistinctCardinality(at);
    DistinctCardinality(all);
    forall q | q in at ensures q in all {
      assert all[q] == q;
    }
    SubsetCardinality(Elements(at), Elements(all));
    assert all[p] == p && p in Elements(all);
  }

  /** Whenever an arrangement exists, the rescans find one. */
  lemma {:induction false} ScanSucceeds(outputs: seq<Output>, expected: set<Path>, pending: seq<nat>, ordered: seq<nat>, at: seq<nat>)
    requires Underway(|outputs|, pending, ordered) && Arrangement(outputs, expected, at)
    ensures Scan(outputs, expected, pending, ordered).Some?
    decreases |pending|
  {
    if pending != [] {
      CoversAll(at, |outputs|, pending[0]);
      var k := FirstUnordered(at, ordered, pending[0]);
      SomeFree(outputs, expected, pending, ordered, at, k);
      var i := FirstFree(Pick(outputs, pending), expected, Paths(Pick(outputs, ordered)));
      UnderwayMoves(|outputs|, pending, ordered, i);
      ScanSucceeds(outputs, expected, Without(pending, i), ordered + [pending[i]], at);
    }
  }

  lemma {:induction false} ScanExtends(outputs: seq<Output>, expected: set<Path>, pending: seq<nat>, ordered: seq<nat>)
    requires Underway(|outputs|, pending, ordered) && Scan(outputs, expected, pending, ordered).Some?
    ensures var r := Scan(outputs, expected, pending, ordered).value;
            ordered <= r && Underway(|outputs|, [], r)
    decreases |pending|
  {
    if pending != [] {
      var i := FirstFree(Pick(outputs, pending), expected, Paths(Pick(outputs, ordered)));
      UnderwayMoves(|outputs|, pending, ordered, i);
      ScanExtends(outputs, expected, Without(pending, i), ordered + [pending[i]]);
    }
  }

  lemma SmallerNext(p: seq<nat>, q: seq<nat>, prefix: seq<nat>, next: nat)
    requires prefix + [next] <= p && prefix <= q && |prefix| < |q| && next < q[|prefix|]
    ensures NotAfter(p, q)
  {
    assert p[..|prefix|] == prefix == q[..|prefix|] && p[|prefix|] == next;
    assert DiffersDownAt(p, q, |prefix|);
  }

  lemma NextIsPending(n: nat, pending: seq<nat>, ordered: seq<nat>, at: seq<nat>)
    requires Underway(n, pending, ordered) && pending != [] && ordered <= at && Positions(at, n) && Distinct(at) && |at| == n
    ensures |ordered| < n && at[|ordered|] in pending && forall j :: 0 <= j < |ordered| ==> at[j] in ordered
  {
    var k := |ordered|;
    forall j | 0 <= j < k ensures at[j] in ordered && at[j] != at[k] {
      assert at[j] == ordered[j];
    }
  }

  /** The rescans never put a later output where an earlier one could go. */
  lemma {:induction false} ScanIsLeast(outputs: seq<Output>, expected: set<Path>, pending: seq<nat>, ordered: seq<nat>, at: seq<nat>)
    requires Underway(|outputs|, pending, ordered) && Arrangement(outputs, expected, at) && ordered <= at
    requires Scan(outputs, expected, pending, ordered).Some?
    ensures NotAfter(Scan(outputs, expected, pending, ordered).value, at)
    decreases |pending|
  {
    var k := |ordered|;
    if pending == [] {
      assert at == ordered;
    } else {
      NextIsPending(|outputs|, pending, ordered, at);
      SomeFree(outputs, expected, pending, ordered, at, k);
      var i := FirstFree(Pick(outputs, pending), expected, Paths(Pick(outputs, ordered)));
      UnderwayMoves(|outputs|, pending, ordered, i);
      if pending[i] == at[k] {
        assert ordered + [pending[i]] <= at;
        ScanIsLeast(outputs, expected, Without(pending, i), ordered + [pending[i]], at);
      } else {
        ScanExtends(outputs, expected, Without(pending, i), ordered + [pending[i]]);
        SmallerNext(Scan(outputs, expected, pending, ordered).value, at, ordered, pending[i]);
      }
    }
  }

  ghost predicate IsLeast(outputs: seq<Output>, expected: set<Path>, at: seq<nat>) {
    Arrangement(outputs, expected, at) && forall other :: Arrangement(outputs, expected, other) ==> NotAfter(at, other)
  }

  /** Ordering fails exactly where no permutation of the outputs puts references first, and
      otherwise gives the least of those that do: at the first difference from any other, it
      has the output that was listed earlier. */
  lemma RescanIsLeast(outputs: seq<Output>, expected: set<Path>)
    ensures var r := Rescan(outputs, expected, []);
            && (r.ReferenceCycle? <==> forall at :: !Arrangement(outputs, expected, at))
            && (r.Ordered? ==> exists at :: IsLeast(outputs, expected, at) && r.outputs == Pick(outputs, at))
  {
    var all: seq<nat> := seq(|outputs|, i => i);
    assert Pick(outputs, all) == outputs && Pick(outputs, []) == [];
    ScanIsRescan(outputs, expected, all, []);
    forall p: nat | p < |outputs| ensures p in all {
      assert all[p] == p;
    }
    assert Underway(|outputs|, all, []);
    forall at | Arrangement(outputs, expected, at) ensures Rescan(outputs, expected, []).Ordered? {
      ScanSucceeds(outputs, expected, all, [], at);
    }
    if Rescan(outputs, expected, []).Ordered? {
      RescanSound(outputs, expected, []);
      ScanExtends(outputs, expected, all, []);
      var at := Scan(outputs, expected, all, []).value;
      forall other | Arrangement(outputs, expected, other) ensures NotAfter(at, other) {
        ScanIsLeast(outputs, expected, all, [], other);
      }
      assert IsLeast(outputs, expected, at);
    }
  }

  // ----- completeness, where a path determines its references -----

  /** Outputs of one path have one list of references, as when a store was asked for it. */
  ghost predicate Consistent(s: seq<Output>) {
    forall a, b :: a in s && b in s && a.path == b.path ==> a.references == b.references
  }

  ghost predicate Describes(deps: Deps, outputs: seq<Output>, expected: set<Path>) {
    && deps.Keys == Paths(outputs)
    && forall o :: o in outputs ==> deps[o.path] == set r | r in o.references && r in expected && r != o.path
  }

  /** The outputs' references restricted to expected paths, self-references aside. */
  ghost function OutputDeps(outputs: seq<Output>, expected: set<Path>): (deps: Deps)
    requires Consistent(outputs)
    ensures Describes(deps, outputs, expected)
  {
    map p | p in Paths(outputs) :: var o := Owner(outputs, p); set r | r in o.references && r in expected && r != o.path
  }

  ghost function Owner(outputs: seq<Output>, p: Path): (o: Output)
    requires p in Paths(outputs)
    ensures o in outputs && o.path == p
  {
    var o :| o in outputs && o.path == p;
    o
  }

  /** A scan that finds nothing free leaves a set of outputs that wait for each other. */
  lemma {:induction false} StuckIsCyclic(pending: seq<Output>, expected: set<Path>, ordered: seq<Output>, deps: Deps)
    requires Rescan(pending, expected, ordered).ReferenceCycle?
    requires deps.Keys == Paths(pending) + Paths(ordered) && Closed(deps)
    requires forall o :: o in pending ==> deps[o.path] == set r | r in o.references && r in expected && r != o.path
    ensures Cyclic(deps)
    decreases |pending|
  {
    var i := FirstFree(pending, expected, Paths(ordered));
    if i == |pending| {
      forall p | p in Paths(pending) ensures WaitsFor(deps, p, Paths(pending)) {
        var o := Owner(pending, p);
        var r :| r in o.references && r != o.path && r in expected && r !in Paths(ordered);
        assert Follows(deps, p, r);
      }
      assert pending[0].path in Paths(pending);
      BlockedIsCyclic(deps, Paths(pending));
    } else {
      PathsAppend(ordered, pending[i]);
      PathsWithout(pending, i);
      StuckIsCyclic(Without(pending, i), expected, ordered + [pending[i]], deps);
    }
  }

  lemma PathsWithout(s: seq<Output>, i: nat)
    requires i < |s|
    ensures Paths(s) == Paths(Without(s, i)) + {s[i].path}
  {
    var t := Without(s, i);
    forall o ensures o in s <==> o in t || o == s[i] {
      WithoutMultiset(s, i);
      assert o in s <==> o in multiset(s);
      assert o in t <==> o in multiset(t);
    }
  }

  lemma PermutationPaths(a: seq<Output>, b: seq<Output>)
    requires multiset(a) == multiset(b)
    ensures |a| == |b| && Paths(a) == Paths(b)
    ensures forall x :: x in a <==> x in b
  {
    assert |multiset(a)| == |a| && |multiset(b)| == |b|;
    forall x ensures x in a <==> x in b {
      assert x in a <==> x in multiset(a);
      assert x in b <==> x in multiset(b);
    }
  }

  /** The elements of a cycle wait for each other. */
  lemma CycleIsBlocked(deps: Deps, w: seq<Path>)
    requires IsCycle(deps, w)
    ensures Blocked(deps, Elements(w))
  {
    assert w[0] in Elements(w);
    forall p | p in Elements(w) ensures WaitsFor(deps, p, Elements(w)) {
      var i :| 0 <= i < |w| && w[i] == p;
      var j := if i + 1 == |w| then 0 else i;
      assert Edge(deps, w, j);
      assert w[j + 1] in Elements(w);
    }
  }

  /** A free output waits for nothing that is not emitted. */
  lemma FreeIsUnblocked(deps: Deps, expected: set<Path>, o: Output, emitted: set<Path>, blocked: set<Path>)
    requires o.path in deps && deps[o.path] == set r | r in o.references && r in expected && r != o.path
    requires Free(o, expected, emitted) && emitted !! blocked && o.path in blocked
    ensures !Blocked(deps, blocked)
  {
    assert !WaitsFor(deps, o.path, blocked);
  }

  /** The first output in a blocked set would have waited for an earlier one. */
  lemma SequencedUnblocked(deps: Deps, expected: set<Path>, s: seq<Output>, blocked: set<Path>)
    requires Describes(deps, s, expected) && Sequenced(expected, s) && blocked != {} && blocked <= deps.Keys
    ensures !Blocked(deps, blocked)
  {
    var k := 0;
    while k < |s| && s[k].path !in blocked
      invariant k <= |s| && forall j :: 0 <= j < k ==> s[j].path !in blocked
    {
      k := k + 1;
    }
    if k < |s| {
      assert s[k] in s;
      FreeIsUnblocked(deps, expected, s[k], Paths(s[..k]), blocked);
    } else {
      assert false;
    }
  }

  lemma SequencedIsClosed(deps: Deps, expected: set<Path>, s: seq<Output>)
    requires Describes(deps, s, expected) && Sequenced(expected, s)
    ensures Closed(deps)
  {
    forall p, q | p in deps && q in deps[p] ensures q in deps {
      var i :| 0 <= i < |s| && s[i].path == p;
      assert s[i] in s && Free(s[i], expected, Paths(s[..i]));
      assert Paths(s[..i]) <= Paths(s);
    }
  }

  /** Outputs in a references-first sequence refer to each other only, and not in a circle. */
  lemma SequencedIsAcyclic(deps: Deps, expected: set<Path>, s: seq<Output>)
    requires Describes(deps, s, expected) && Sequenced(expected, s)
    ensures Closed(deps) && !Cyclic(deps)
  {
    SequencedIsClosed(deps, expected, s);
    forall w | IsCycle(deps, w) ensures false {
      CycleIsBlocked(deps, w);
      SequencedUnblocked(deps, expected, s, Elements(w));
    }
  }

  /** Ordering succeeds exactly when no output refers to an expected path that is not among
      them and the references have no cycle. */
  lemma OrderedIffAcyclic(outputs: seq<Output>, expected: set<Path>)
    requires Consistent(outputs)
    ensures var deps := OutputDeps(outputs, expected);
            Rescan(outputs, expected, []).Ordered? <==> Closed(deps) && !Cyclic(deps)
  {
    var deps := OutputDeps(outputs, expected);
    var r := Rescan(outputs, expected, []);
    if r.Ordered? {
      RescanSound(outputs, expected, []);
      PermutationPaths(r.outputs, outputs);
      SequencedIsAcyclic(deps, expected, r.outputs);
    } else if Closed(deps) {
      assert Paths([]) == {};
      StuckIsCyclic(outputs, expected, [], deps);
    }
  }

  /** Where the expected paths are those of the outputs, the "reference cycle" error is
      exactly a reference cycle. */
  lemma RemoteOrderedIffAcyclic(outputs: seq<Output>)
    requires Consistent(outputs)
    ensures Rescan(outputs, Paths(outputs), []).ReferenceCycle? <==> Cyclic(OutputDeps(outputs, Paths(outputs)))
  {
    OrderedIffAcyclic(outputs, Paths(outputs));
    var deps := OutputDeps(outputs, Paths(outputs));
    forall p | p in deps ensures deps[p] <= deps.Keys {
      var o := Owner(outputs, p);
    }
  }

  // ----- what the worker returns -----

  /** An output as the manifest names it. */
  datatype Declared = Declared(name: Path, path: Path)

  /** A declared output with the references the store reports for its path. */
  function Described(declared: seq<Declared>, store: map<Path, seq<Path>>): seq<Output>
    requires forall d :: d in declared ==> d.path in store
  {
    seq(|declared|, i requires 0 <= i < |declared| =>
      Output(declared[i].name, declared[i].path, store[declared[i].path]))
  }

  function DeclaredPaths(declared: seq<Declared>): set<Path> {
    set d | d in declared :: d.path
  }

  /** What the store says of the declared paths, among themselves. */
  function StoreDeps(declared: seq<Declared>, store: map<Path, seq<Path>>): Deps
    requires forall d :: d in declared ==> d.path in store
  {
    var paths := DeclaredPaths(declared);
    map p | p in paths :: set r | r in store[p] && r in paths && r != p
  }

  lemma DescribedOutputs(declared: seq<Declared>, store: map<Path, seq<Path>>)
    requires forall d :: d in declared ==> d.path in store
    ensures var outputs := Described(declared, store);
            && Paths(outputs) == DeclaredPaths(declared) && Consistent(outputs)
            && OutputDeps(outputs, Paths(outputs)) == StoreDeps(declared, store)
  {
    var outputs := Described(declared, store);
    forall p | p in DeclaredPaths(declared) ensures p in Paths(outputs) {
      var d :| d in declared && d.path == p;
      var i :| 0 <= i < |declared| && declared[i] == d;
      assert outputs[i] in outputs;
    }
    assert forall o :: o in outputs ==> o.path in DeclaredPaths(declared) && o.references == store[o.path];
    var deps := OutputDeps(outputs, Paths(outputs));
    forall p | p in deps ensures deps[p] == StoreDeps(declared, store)[p] {
      var o := Owner(outputs, p);
    }
  }

  // ----- the same, on the declarations and the store -----

  function Declaration(o: Output): Declared { Declared(o.name, o.path) }

  function Declarations(outputs: seq<Output>): seq<Declared> {
    seq(|outputs|, i requires 0 <= i < |outputs| => Declaration(outputs[i]))
  }

  /** The store reports for one declared path that it refers to another. */
  ghost predicate RefersTo(declared: seq<Declared>, store: map<Path, seq<Path>>, path: Path, other: Path) {
    && path != other && path in store && other in store[path]
    && (exists d :: d in declared && d.path == path) && exists d :: d in declared && d.path == other
  }

  /** The declared outputs, each once, with what the store reports, behind what they refer to. */
  ghost predicate Returns(declared: seq<Declared>, store: map<Path, seq<Path>>, s: seq<Output>) {
    && multiset(Declarations(s)) == multiset(declared)
    && (forall i :: 0 <= i < |s| ==> s[i].path in store && s[i].references == store[s[i].path])
    && (forall i, q :: 0 <= i < |s| && RefersTo(declared, store, s[i].path, q) ==> exists j :: 0 <= j < i && s[j].path == q)
  }

  ghost predicate CircleStep(declared: seq<Declared>, store: map<Path, seq<Path>>, w: seq<Path>, i: nat) {
    i + 1 < |w| && RefersTo(declared, store, w[i], w[i + 1])
  }

  /** Each path refers to the next, and the last is the first. */
  ghost predicate Circle(declared: seq<Declared>, store: map<Path, seq<Path>>, w: seq<Path>) {
    |w| >= 2 && w[0] == w[|w| - 1] && forall i: nat :: i + 1 < |w| ==> CircleStep(declared, store, w, i)
  }

  lemma CircleIsCycle(declared: seq<Declared>, store: map<Path, seq<Path>>, w: seq<Path>)
    requires forall d :: d in declared ==> d.path in store
    ensures Circle(declared, store, w) <==> IsCycle(StoreDeps(declared, store), w)
  {
    var deps := StoreDeps(declared, store);
    forall i: nat | i + 1 < |w| ensures CircleStep(declared, store, w, i) <==> Edge(deps, w, i) {
      assert RefersTo(declared, store, w[i], w[i + 1]) <==> Follows(deps, w[i], w[i + 1]);
    }
  }

  lemma CyclicIsCircle(declared: seq<Declared>, store: map<Path, seq<Path>>)
    requires forall d :: d in declared ==> d.path in store
    ensures Cyclic(StoreDeps(declared, store)) <==> exists w :: Circle(declared, store, w)
  {
    forall w ensures Circle(declared, store, w) <==> IsCycle(StoreDeps(declared, store), w) {
      CircleIsCycle(declared, store, w);
    }
  }

  lemma DeclarationsOf(declared: seq<Declared>, store: map<Path, seq<Path>>)
    requires forall d :: d in declared ==> d.path in store
    ensures Declarations(Described(declared, store)) == declared
  {
  }

  /** A permutation keeps the declarations. */
  lemma {:induction false} DeclarationsPermute(a: seq<Output>, b: seq<Output>)
    requires multiset(a) == multiset(b)
    ensures multiset(Declarations(a)) == multiset(Declarations(b))
    decreases |a|
  {
    PermutationPaths(a, b);
    if a != [] {
      assert a[0] in b;
      var i :| 0 <= i < |b| && b[i] == a[0];
      WithoutMultiset(a, 0);
      WithoutMultiset(b, i);
      assert multiset(Without(a, 0)) == multiset(a) - multiset{a[0]};
      assert multiset(Without(b, i)) == multiset(b) - multiset{a[0]};
      DeclarationsPermute(Without(a, 0), Without(b, i));
      DeclarationsWithout(a, 0);
      DeclarationsWithout(b, i);
    }
  }

  lemma DeclarationsWithout(s: seq<Output>, i: nat)
    requires i < |s|
    ensures multiset(Declarations(s)) == multiset(Declarations(Without(s, i))) + multiset{Declaration(s[i])}
  {
    assert Declarations(Without(s, i)) == Without(Declarations(s), i);
    WithoutMultiset(Declarations(s), i);
  }

  lemma OrderReturns(declared: seq<Declared>, store: map<Path, seq<Path>>, s: seq<Output>)
    requires forall d :: d in declared ==> d.path in store
    requires multiset(s) == multiset(Described(declared, store)) && Sequenced(DeclaredPaths(declared), s)
    ensures Returns(declared, store, s)
  {
    var outputs := Described(declared, store);
    DeclarationsPermute(s, outputs);
    DeclarationsOf(declared, store);
    PermutationPaths(s, outputs);
    forall i | 0 <= i < |s| ensures s[i].path in store && s[i].references == store[s[i].path] {
      assert s[i] in outputs;
    }
    forall i, q | 0 <= i < |s| && RefersTo(declared, store, s[i].path, q) ensures exists j :: 0 <= j < i && s[j].path == q {
      assert Free(s[i], DeclaredPaths(declared), Paths(s[..i]));
      assert q in Paths(s[..i]);
    }
  }

  /** The worker's return of its build: where the store knows nothing of a declared path there
      is no return; otherwise it fails exactly for a circle of references among the declared
      paths, and else sends each declared output once, behind what it refers to. */
  method ReturnOutputs(declared: seq<Declared>, store: map<Path, seq<Path>>) returns (r: Option<Outcome>)
    ensures r.None? <==> exists d :: d in declared && d.path !in store
    ensures r.Some? ==> (r.value.ReferenceCycle? <==> exists w :: Circle(declared, store, w))
    ensures r.Some? && r.value.Ordered? ==> Returns(declared, store, r.value.outputs)
    ensures r.Some? && r.value.Ordered? ==>
      exists at :: IsLeast(Described(declared, store), DeclaredPaths(declared), at) && r.value.outputs == Pick(Described(declared, store), at)
  {
    var outputs: seq<Output> := [];
    for i := 0 to |declared|
      invariant forall j :: 0 <= j < i ==> declared[j].path in store
      invariant outputs == Described(declared[..i], store)
    {
      if declared[i].path !in store {
        return None;
      }
      outputs := outputs + [Output(declared[i].name, declared[i].path, store[declared[i].path])];
    }
    assert declared[..|declared|] == declared;
    var ordered := OrderOutputs(outputs, DeclaredPaths(declared));
    DescribedOutputs(declared, store);
    RemoteOrderedIffAcyclic(outputs);
    RescanSound(outputs, Paths(outputs), []);
    CyclicIsCircle(declared, store);
    RescanIsLeast(outputs, DeclaredPaths(declared));
    if ordered.Ordered? {
      OrderReturns(declared, store, ordered.outputs);
    }
    return Some(ordered);
  }
}
