/** The Nomad worker's order of requested inputs: dependency counters, a reverse
    adjacency map and an ordered ready set (`order_requested_inputs`), and its use by
    `requested_inputs` and `import_requested_inputs`. */
module InputOrder {
  import opened Basics
  import opened Bytes
  import opened ReferenceGraph

  datatype Entry = Entry(path: Path, references: seq<Path>)

  datatype Outcome =
    | Ordered(paths: seq<Path>)
    | DuplicatePaths
    | NotAdmitted
    | DependencyInvalid
    | ReferenceCycle

  /** Collecting entries into a `BTreeMap`: the last entry for a path wins. */
  function Admitted(manifest: seq<Entry>): map<Path, seq<Path>> {
    if manifest == [] then map[]
    else
      var last := manifest[|manifest| - 1];
      Admitted(manifest[..|manifest| - 1])[last.path := last.references]
  }

  /** References of `path` that are requested too, itself excepted. */
  function Dependencies(path: Path, references: seq<Path>, nodes: set<Path>): set<Path> {
    set q | q in references && q != path && q in nodes
  }

  ghost function RequestDeps(manifest: seq<Entry>, nodes: set<Path>): (deps: Deps)
    requires nodes <= Admitted(manifest).Keys
    ensures deps.Keys == nodes && Closed(deps)
    ensures forall p :: p in deps ==> p !in deps[p]
  {
    map p | p in nodes :: Dependencies(p, Admitted(manifest)[p], nodes)
  }

  /** What a request means: the errors in the order they are checked, then the plan. */
  ghost function RequestOrder(manifest: seq<Entry>, requested: seq<Path>): Outcome {
    var nodes := Elements(requested);
    if |nodes| != |requested| then DuplicatePaths
    else if !(nodes <= Admitted(manifest).Keys) then NotAdmitted
    else
      var plan := Plan(RequestDeps(manifest, nodes), []);
      if |plan| == |nodes| then Ordered(plan) else ReferenceCycle
  }

  // ----- the imperative form -----

  type Dependents = map<Path, seq<Path>>

  function DependentsOf(dependents: Dependents, p: Path): seq<Path> {
    if p in dependents then dependents[p] else []
  }

  ghost predicate Appends(before: seq<Path>, after: seq<Path>, path: Path, more: bool) {
    after == before + if more then [path] else []
  }

  ghost predicate AddsTo(before: Dependents, after: Dependents, path: Path, dependencies: set<Path>) {
    forall d :: Appends(DependentsOf(before, d), DependentsOf(after, d), path, d in dependencies)
  }

  method AddDependents(dependents: Dependents, path: Path, dependencies: set<Path>) returns (r: Dependents)
    ensures AddsTo(dependents, r, path, dependencies)
  {
    r := dependents;
    var todo := dependencies;
    while todo != {}
      invariant todo <= dependencies
      invariant AddsTo(dependents, r, path, dependencies - todo)
      decreases |todo|
    {
      var d;
      d, todo := PopFirst(todo);
      r := r[d := DependentsOf(r, d) + [path]];
    }
  }

  /** The paths among `done` that depend on `d`, each once. */
  ghost predicate ListsDependents(list: seq<Path>, deps: Deps, done: set<Path>, d: Path) {
    Distinct(list) && forall p :: p in list <==> p in done && Follows(deps, p, d)
  }

  ghost predicate ReverseOf(dependents: Dependents, deps: Deps, done: set<Path>) {
    forall d :: ListsDependents(DependentsOf(dependents, d), deps, done, d)
  }

  lemma ListGrows(before: seq<Path>, after: seq<Path>, deps: Deps, done: set<Path>, d: Path, path: Path)
    requires ListsDependents(before, deps, done, d) && path in deps && path !in done
    requires Appends(before, after, path, d in deps[path])
    ensures ListsDependents(after, deps, done + {path}, d)
  {
  }

  lemma ReverseGrows(before: Dependents, after: Dependents, deps: Deps, done: set<Path>, path: Path)
    requires ReverseOf(before, deps, done) && path in deps && path !in done
    requires AddsTo(before, after, path, deps[path])
    ensures ReverseOf(after, deps, done + {path})
  {
    forall d ensures ListsDependents(DependentsOf(after, d), deps, done + {path}, d) {
      ListGrows(DependentsOf(before, d), DependentsOf(after, d), deps, done, d, path);
    }
  }

  ghost predicate Parts(done: set<Path>, todo: set<Path>, all: set<Path>) {
    done + todo == all && done !! todo
  }

  lemma PartMoves(done: set<Path>, todo: set<Path>, all: set<Path>, path: Path)
    requires Parts(done, todo, all) && path in todo
    ensures Parts(done + {path}, todo - {path}, all)
  {
  }

  /** A counter for each path of `done`: how many it depends on. */
  ghost predicate Sizes(counts: map<Path, nat>, deps: Deps, done: set<Path>) {
    counts.Keys == done && forall p :: p in counts ==> p in deps && counts[p] == |deps[p]|
  }

  lemma SizesGrow(counts: map<Path, nat>, deps: Deps, done: set<Path>, path: Path)
    requires Sizes(counts, deps, done) && path in deps
    ensures Sizes(counts[path := |deps[path]|], deps, done + {path})
  {
  }

  method CountDependencies(entries: map<Path, seq<Path>>, nodes: set<Path>, ghost deps: Deps)
    returns (counts: map<Path, nat>, dependents: Dependents)
    requires nodes <= entries.Keys && deps.Keys == nodes
    requires forall p :: p in nodes ==> deps[p] == Dependencies(p, entries[p], nodes)
    ensures Sizes(counts, deps, nodes) && ReverseOf(dependents, deps, nodes)
  {
    counts, dependents := map[], map[];
    var todo := nodes;
    ghost var done: set<Path> := {};
    while todo != {}
      invariant Parts(done, todo, nodes) && Sizes(counts, deps, done)
      invariant ReverseOf(dependents, deps, done)
      decreases |todo|
    {
      var path;
      ghost var before := dependents;
      ghost var left := todo;
      path, todo := PopFirst(todo);
      var dependencies := Dependencies(path, entries[path], nodes);
      SizesGrow(counts, deps, done, path);
      counts := counts[path := |dependencies|];
      dependents := AddDependents(dependents, path, dependencies);
      ReverseGrows(before, dependents, deps, done, path);
      PartMoves(done, left, nodes, path);
      done := done + {path};
    }
  }

  /** The waiting paths whose counter stood at one. */
  ghost function JustFreed(before: map<Path, nat>, waiting: seq<Path>): set<Path> {
    set p | p in before && p in waiting && before[p] == 1
  }

  /** The counter updates after a path is emitted; `valid` is false where the source
      returns "worker input dependency is invalid". */
  method ReleaseDependents(before: map<Path, nat>, ready0: set<Path>, waiting: seq<Path>)
    returns (counts: map<Path, nat>, ready: set<Path>, valid: bool)
    ensures Distinct(waiting) && (forall p :: p in waiting ==> p in before && before[p] > 0) ==>
              && valid
              && counts.Keys == before.Keys
              && (forall p :: p in counts ==> counts[p] == before[p] - if p in waiting then 1 else 0)
              && ready == ready0 + JustFreed(before, waiting)
  {
    counts, ready, valid := before, ready0, true;
    var i := 0;
    ghost var good := Distinct(waiting) && (forall p :: p in waiting ==> p in before && before[p] > 0);
    while i < |waiting|
      invariant 0 <= i <= |waiting|
      invariant good ==> counts.Keys == before.Keys
      invariant good ==> forall p :: p in counts ==> counts[p] == before[p] - if p in waiting[..i] then 1 else 0
      invariant good ==> ready == ready0 + JustFreed(before, waiting[..i])
      invariant valid
    {
      var dependent := waiting[i];
      assert waiting[..i + 1] == waiting[..i] + [dependent];
      assert good ==> dependent !in waiting[..i];
      if dependent !in counts || counts[dependent] == 0 {
        valid := false;
        return;
      }
      counts := counts[dependent := counts[dependent] - 1];
      if counts[dependent] == 0 {
        ready := ready + {dependent};
      }
      i := i + 1;
    }
    assert waiting[..i] == waiting;
  }

  ghost function Left(needed: set<Path>, emitted: set<Path>): nat {
    |needed - emitted|
  }

  /** The counters say how many dependencies are left once `emitted` is out. */
  ghost predicate Counted(deps: Deps, emitted: set<Path>, counts: map<Path, nat>) {
    counts.Keys == deps.Keys && forall p :: p in deps ==> counts[p] == Left(deps[p], emitted)
  }

  /** Ready paths and emitted paths are exactly those whose counter is zero. */
  ghost predicate Tracks(emitted: set<Path>, counts: map<Path, nat>, ready: set<Path>) {
    && (forall p :: p in ready <==> p in counts && p !in emitted && counts[p] == 0)
    && (forall p :: p in emitted ==> p in counts && counts[p] == 0)
  }

  lemma LeftZero(needed: set<Path>, emitted: set<Path>)
    ensures Left(needed, emitted) == 0 <==> needed <= emitted
  {
    assert forall q :: q in needed && q !in emitted ==> q in needed - emitted;
  }

  lemma EmittingUncovers(needed: set<Path>, emitted: set<Path>, path: Path)
    requires path !in emitted
    ensures Left(needed, emitted) == Left(needed, emitted + {path}) + if path in needed then 1 else 0
  {
    assert needed - (emitted + {path}) == (needed - emitted) - {path};
  }

  lemma TrackedReady(deps: Deps, emitted: set<Path>, counts: map<Path, nat>, ready: set<Path>)
    requires Counted(deps, emitted, counts) && Tracks(emitted, counts, ready)
    ensures ready == Ready(deps, emitted)
  {
    forall p | p in deps ensures counts[p] == 0 <==> Unblocked(deps, p, emitted) {
      LeftZero(deps[p], emitted);
    }
  }

  lemma EmittingCounts(deps: Deps, emitted: set<Path>, before: map<Path, nat>, path: Path, after: map<Path, nat>)
    requires Counted(deps, emitted, before) && path !in emitted && after.Keys == before.Keys
    requires forall p :: p in before ==> after[p] + (if path in deps[p] then 1 else 0) == before[p]
    ensures Counted(deps, emitted + {path}, after)
  {
    forall p | p in deps ensures after[p] == Left(deps[p], emitted + {path}) {
      EmittingUncovers(deps[p], emitted, path);
    }
  }

  lemma EmittingTracks(emitted: set<Path>, before: map<Path, nat>, ready: set<Path>,
                       path: Path, waiting: seq<Path>, after: map<Path, nat>)
    requires Tracks(emitted, before, ready) && path in ready && after.Keys == before.Keys
    requires forall p :: p in waiting ==> p in before && before[p] > 0
    requires forall p :: p in before ==> after[p] + (if p in waiting then 1 else 0) == before[p]
    ensures Tracks(emitted + {path}, after, (ready - {path}) + JustFreed(before, waiting))
  {
  }

  lemma InitiallyTracks(deps: Deps, counts: map<Path, nat>)
    requires Sizes(counts, deps, deps.Keys)
    ensures Counted(deps, {}, counts)
  {
    forall p | p in deps ensures counts[p] == Left(deps[p], {}) {
      assert deps[p] - {} == deps[p];
    }
  }

  /** The paths waiting for a path about to be emitted: each once, each with a counter. */
  lemma WaitingCounted(deps: Deps, dependents: Dependents, emitted: set<Path>, counts: map<Path, nat>, path: Path)
    requires ReverseOf(dependents, deps, deps.Keys) && Counted(deps, emitted, counts) && path !in emitted
    ensures var waiting := DependentsOf(dependents, path);
            && Distinct(waiting)
            && (forall p :: p in waiting ==> p in counts && counts[p] > 0)
            && (forall p :: p in counts ==> (p in waiting <==> path in deps[p]))
  {
    var waiting := DependentsOf(dependents, path);
    forall p | p in waiting ensures p in counts && counts[p] > 0 {
      assert Follows(deps, p, path);
      EmittingUncovers(deps[p], emitted, path);
    }
    forall p | p in counts ensures p in waiting <==> path in deps[p] {
      assert p in waiting <==> Follows(deps, p, path);
    }
  }

  /** The loop over the ready set emits the plan. */
  method EmitReady(counts0: map<Path, nat>, dependents: Dependents, ghost deps: Deps) returns (ordered: seq<Path>, valid: bool)
    requires Sizes(counts0, deps, deps.Keys) && ReverseOf(dependents, deps, deps.Keys)
    ensures valid && ordered == Plan(deps, [])
  {
    var counts := counts0;
    var ready := set p | p in counts && counts[p] == 0;
    ordered, valid := [], true;
    InitiallyTracks(deps, counts);
    while ready != {}
      invariant Counted(deps, Elements(ordered), counts) && Tracks(Elements(ordered), counts, ready)
      invariant valid && Plan(deps, ordered) == Plan(deps, [])
      decreases |deps.Keys - Elements(ordered)|
    {
      ghost var emitted, before, ready0 := Elements(ordered), counts, ready;
      TrackedReady(deps, emitted, counts, ready);
      var path;
      path, ready := PopFirst(ready);
      PlanDecreases(deps, ordered, path);
      ElementsAppend(ordered, path);
      WaitingCounted(deps, dependents, emitted, counts, path);
      var waiting := DependentsOf(dependents, path);
      counts, ready, valid := ReleaseDependents(counts, ready, waiting);
      if !valid {
        return;
      }
      EmittingCounts(deps, emitted, before, path, counts);
      EmittingTracks(emitted, before, ready0, path, waiting, counts);
      ordered := ordered + [path];
    }
    TrackedReady(deps, Elements(ordered), counts, ready);
  }

  method ComputeOrder(manifest: seq<Entry>, requested: seq<Path>) returns (r: Outcome)
    ensures r == RequestOrder(manifest, requested)
    ensures r != DependencyInvalid
  {
    var nodes := Elements(requested);
    if |nodes| != |requested| {
      return DuplicatePaths;
    }
    var entries := Admitted(manifest);
    if !(nodes <= entries.Keys) {
      return NotAdmitted;
    }
    ghost var deps := RequestDeps(manifest, nodes);
    var counts, dependents := CountDependencies(entries, nodes, deps);
    var ordered, valid := EmitReady(counts, dependents, deps);
    if !valid {
      return DependencyInvalid;
    }
    if |ordered| != |nodes| {
      return ReferenceCycle;
    }
    return Ordered(ordered);
  }

  // ----- what the order is -----

  ghost predicate Orderable(manifest: seq<Entry>, requested: seq<Path>) {
    Distinct(requested) && Elements(requested) <= Admitted(manifest).Keys
  }

  /** The least, lexicographically, of all dependency-respecting orders. */
  ghost predicate IsCanonical(deps: Deps, o: seq<Path>) {
    IsOrder(deps, o) && forall other :: IsOrder(deps, other) ==> AtMost(o, other)
  }

  lemma CanonicalUnique(deps: Deps, a: seq<Path>, b: seq<Path>)
    requires IsCanonical(deps, a) && IsCanonical(deps, b)
    ensures a == b
  {
    AtMostAntisymmetric(a, b);
  }

  /** A request is ordered exactly when its paths are distinct and admitted and their
      references, restricted to the request and self-references aside, have no cycle;
      the result is the canonical order. */
  lemma OrderedIffAcyclic(manifest: seq<Entry>, requested: seq<Path>)
    ensures var nodes := Elements(requested);
            RequestOrder(manifest, requested).Ordered? <==>
              Orderable(manifest, requested) && !Cyclic(RequestDeps(manifest, nodes))
    ensures var r := RequestOrder(manifest, requested);
            r.Ordered? ==> Orderable(manifest, requested) && IsCanonical(RequestDeps(manifest, Elements(requested)), r.paths)
  {
    CardinalityDistinct(requested);
    if Distinct(requested) { DistinctCardinality(requested); }
    if Orderable(manifest, requested) {
      var deps := RequestDeps(manifest, Elements(requested));
      PlanCompleteIffAcyclic(deps);
      forall other | IsOrder(deps, other) ensures AtMost(Plan(deps, []), other) {
        assert other[..0] == [];
        PlanIsLeast(deps, other, 0);
      }
    }
  }

  /** The outcome depends on the set of requested paths only. */
  lemma OrderDependsOnSet(manifest: seq<Entry>, a: seq<Path>, b: seq<Path>)
    requires Distinct(a) && Distinct(b) && Elements(a) == Elements(b)
    ensures RequestOrder(manifest, a) == RequestOrder(manifest, b)
  {
    DistinctCardinality(a);
    DistinctCardinality(b);
  }

  /** `import_requested_inputs` compares the request with its own reordering. */
  ghost predicate ImportAccepts(manifest: seq<Entry>, requested: seq<Path>) {
    RequestOrder(manifest, requested) == Ordered(requested)
  }

  /** The import accepts exactly the canonical lists of admitted paths. */
  lemma ImportAcceptsIffCanonical(manifest: seq<Entry>, requested: seq<Path>)
    ensures ImportAccepts(manifest, requested) <==>
              Orderable(manifest, requested) && IsCanonical(RequestDeps(manifest, Elements(requested)), requested)
  {
    OrderedIffAcyclic(manifest, requested);
    if Orderable(manifest, requested) {
      var deps := RequestDeps(manifest, Elements(requested));
      if IsCanonical(deps, requested) {
        OrderExcludesCycle(deps, requested);
        CanonicalUnique(deps, requested, RequestOrder(manifest, requested).paths);
      }
    }
  }

  /** So it never rejects a list that resolving a request produced. */
  lemma ImportAcceptsResolved(manifest: seq<Entry>, unresolved: seq<Path>)
    requires RequestOrder(manifest, unresolved).Ordered?
    ensures ImportAccepts(manifest, RequestOrder(manifest, unresolved).paths)
  {
    OrderedIffAcyclic(manifest, unresolved);
    OrderDependsOnSet(manifest, unresolved, RequestOrder(manifest, unresolved).paths);
  }

  // ----- the same, on the manifest -----

  /** Entry `k` is the last one for `path`. */
  ghost predicate LastFor(manifest: seq<Entry>, path: Path, k: nat) {
    k < |manifest| && manifest[k].path == path && forall j :: k < j < |manifest| ==> manifest[j].path != path
  }

  ghost predicate Listed(manifest: seq<Entry>, path: Path) {
    exists k: nat :: LastFor(manifest, path, k)
  }

  /** The last entry for the requested `path` refers to `other`, another requested path. */
  ghost predicate RefersTo(manifest: seq<Entry>, requested: seq<Path>, path: Path, other: Path) {
    path in requested && other in requested && other != path &&
    exists k: nat :: LastFor(manifest, path, k) && other in manifest[k].references
  }

  /** Nothing comes before a requested path that its last entry refers to. */
  ghost predicate ReferencesFirst(manifest: seq<Entry>, requested: seq<Path>, o: seq<Path>) {
    forall i, q :: 0 <= i < |o| && RefersTo(manifest, requested, o[i], q) ==> q in o[..i]
  }

  ghost predicate Rearranges(o: seq<Path>, requested: seq<Path>) {
    |o| == |requested| && forall p :: p in o <==> p in requested
  }

  /** A list of the requested paths, each once, that puts references first. */
  ghost predicate Satisfies(manifest: seq<Entry>, requested: seq<Path>, o: seq<Path>) {
    Distinct(o) && Rearranges(o, requested) && ReferencesFirst(manifest, requested, o)
  }

  ghost predicate CircleStep(manifest: seq<Entry>, requested: seq<Path>, w: seq<Path>, i: nat) {
    i + 1 < |w| && RefersTo(manifest, requested, w[i], w[i + 1])
  }

  /** Each path refers to the next, and the last is the first. */
  ghost predicate Circle(manifest: seq<Entry>, requested: seq<Path>, w: seq<Path>) {
    |w| >= 2 && w[0] == w[|w| - 1] && forall i: nat :: i + 1 < |w| ==> CircleStep(manifest, requested, w, i)
  }

  lemma {:induction false} AdmittedIsLast(manifest: seq<Entry>, path: Path)
    ensures path in Admitted(manifest) <==> Listed(manifest, path)
    ensures forall k: nat :: LastFor(manifest, path, k) ==> path in Admitted(manifest) && Admitted(manifest)[path] == manifest[k].references
    decreases |manifest|
  {
    if manifest != [] {
      var n := |manifest| - 1;
      var init := manifest[..n];
      AdmittedIsLast(init, path);
      if manifest[n].path == path {
        assert LastFor(manifest, path, n);
      } else {
        forall k: nat ensures LastFor(manifest, path, k) <==> LastFor(init, path, k) {
          if k < n { assert manifest[k] == init[k]; }
          if LastFor(init, path, k) {
            forall j | k < j < |manifest| ensures manifest[j].path != path {
              if j < n { assert init[j] == manifest[j]; }
            }
          }
          if LastFor(manifest, path, k) {
            assert k != n;
            forall j | k < j < n ensures init[j].path != path { assert init[j] == manifest[j]; }
          }
        }
      }
    }
  }

  lemma RefersIsDependency(manifest: seq<Entry>, requested: seq<Path>, p: Path, q: Path)
    requires Elements(requested) <= Admitted(manifest).Keys
    ensures RefersTo(manifest, requested, p, q) <==> Follows(RequestDeps(manifest, Elements(requested)), p, q)
  {
    AdmittedIsLast(manifest, p);
    if p in requested {
      assert p in Elements(requested);
      var k: nat :| LastFor(manifest, p, k);
      assert Admitted(manifest)[p] == manifest[k].references;
    }
  }

  lemma CircleIsCycle(manifest: seq<Entry>, requested: seq<Path>, w: seq<Path>)
    requires Elements(requested) <= Admitted(manifest).Keys
    ensures Circle(manifest, requested, w) <==> IsCycle(RequestDeps(manifest, Elements(requested)), w)
  {
    var deps := RequestDeps(manifest, Elements(requested));
    forall i: nat | i + 1 < |w| ensures CircleStep(manifest, requested, w, i) <==> Edge(deps, w, i) {
      RefersIsDependency(manifest, requested, w[i], w[i + 1]);
    }
  }

  lemma FirstIsOrder(manifest: seq<Entry>, requested: seq<Path>, o: seq<Path>)
    requires Orderable(manifest, requested)
    ensures Satisfies(manifest, requested, o) <==> IsOrder(RequestDeps(manifest, Elements(requested)), o)
  {
    var deps := RequestDeps(manifest, Elements(requested));
    forall p, q ensures RefersTo(manifest, requested, p, q) <==> Follows(deps, p, q) {
      RefersIsDependency(manifest, requested, p, q);
    }
    DistinctCardinality(requested);
    if IsOrder(deps, o) {
      DistinctCardinality(o);
      forall p ensures p in o <==> p in requested {
        assert p in o <==> p in Elements(o);
      }
    }
    if Satisfies(manifest, requested, o) {
      assert Elements(o) == deps.Keys;
      forall i | 0 <= i < |o| ensures o[i] in deps && deps[o[i]] <= Elements(o[..i]) {
        assert o[i] in Elements(o);
        forall q | q in deps[o[i]] ensures q in Elements(o[..i]) {
          assert Follows(deps, o[i], q);
        }
      }
    }
  }

  /** Where two lists part, the first has the smaller path: it ends there or has the smaller
      byte where the paths part. */
  ghost predicate ListedBelow(a: seq<Path>, b: seq<Path>, k: nat) {
    k < |a| && k < |b| && a[..k] == b[..k] && exists m: nat :: PartsBelow(a[k], b[k], m)
  }

  lemma BelowIsListed(a: seq<Path>, b: seq<Path>)
    requires AtMost(a, b) && a != b
    ensures exists k: nat :: ListedBelow(a, b, k)
  {
    var k: nat :| DiffersBelow(a, b, k);
    LessIff(a[k], b[k]);
    assert ListedBelow(a, b, k);
  }

  /** The errors, in terms of the request and the manifest's last entries. */
  lemma OrderErrorsOnManifest(manifest: seq<Entry>, requested: seq<Path>)
    ensures var r := RequestOrder(manifest, requested);
            && (r.DuplicatePaths? <==> exists i, j :: 0 <= i < j < |requested| && requested[i] == requested[j])
            && (r.NotAdmitted? <==> !r.DuplicatePaths? && exists p :: p in requested && !Listed(manifest, p))
            && (r.ReferenceCycle? <==> !r.DuplicatePaths? && !r.NotAdmitted? && exists w :: Circle(manifest, requested, w))
  {
    CardinalityDistinct(requested);
    if Distinct(requested) { DistinctCardinality(requested); }
    forall p ensures p in Admitted(manifest) <==> Listed(manifest, p) {
      AdmittedIsLast(manifest, p);
    }
    OrderedIffAcyclic(manifest, requested);
    if Orderable(manifest, requested) {
      forall w ensures Circle(manifest, requested, w) <==> IsCycle(RequestDeps(manifest, Elements(requested)), w) {
        CircleIsCycle(manifest, requested, w);
      }
    }
  }

  /** The order, in the same terms: every requested path once, behind what its last entry
      refers to, and smaller than any other such list where the two part. */
  lemma OrderOnManifest(manifest: seq<Entry>, requested: seq<Path>)
    requires RequestOrder(manifest, requested).Ordered?
    ensures var o := RequestOrder(manifest, requested).paths;
            && Satisfies(manifest, requested, o)
            && forall other :: Satisfies(manifest, requested, other) && other != o ==> exists k: nat :: ListedBelow(o, other, k)
  {
    OrderedIffAcyclic(manifest, requested);
    var o := RequestOrder(manifest, requested).paths;
    FirstIsOrder(manifest, requested, o);
    forall other | Satisfies(manifest, requested, other) && other != o
      ensures exists k: nat :: ListedBelow(o, other, k)
    {
      FirstIsOrder(manifest, requested, other);
      BelowIsListed(o, other);
    }
  }


  /** `order_requested_inputs`: the errors and the order, in the same terms. */
  method OrderRequestedInputs(manifest: seq<Entry>, requested: seq<Path>) returns (r: Outcome)
    ensures r == RequestOrder(manifest, requested) && r != DependencyInvalid
    ensures r.DuplicatePaths? <==> exists i, j :: 0 <= i < j < |requested| && requested[i] == requested[j]
    ensures r.NotAdmitted? <==> !r.DuplicatePaths? && exists p :: p in requested && !Listed(manifest, p)
    ensures r.ReferenceCycle? <==> !r.DuplicatePaths? && !r.NotAdmitted? && exists w :: Circle(manifest, requested, w)
    ensures r.Ordered? ==> Satisfies(manifest, requested, r.paths)
    ensures r.Ordered? ==>
      forall other :: Satisfies(manifest, requested, other) && other != r.paths ==> exists k: nat :: ListedBelow(r.paths, other, k)
  {
    r := ComputeOrder(manifest, requested);
    OrderErrorsOnManifest(manifest, requested);
    if r.Ordered? {
      OrderOnManifest(manifest, requested);
    }
  }
}
