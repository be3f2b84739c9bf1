/** Admission of MicroVM connections: pending counts per process and per backend, permits
    that release them when dropped, and the listener loop that reaps finished workers and
    spawns new ones while there is room. */
module Admission {
  import opened Basics

  type Backend = string

  datatype Counts = Counts(total: nat, backends: map<Backend, nat>)

  function CountOf(c: Counts, b: Backend): nat {
    if b in c.backends then c.backends[b] else 0
  }

  predicate CanAuthenticate(c: Counts, held: Option<Backend>, b: Backend, maximumBackend: nat) {
    held.None? && 0 < |b| <= 256 && CountOf(c, b) < maximumBackend
  }

  /** A permit's drop; the source subtracts, so the counts must be positive. */
  predicate CanRelease(c: Counts, held: Option<Backend>) {
    c.total > 0 && (held.Some? && held.value in c.backends ==> c.backends[held.value] > 0)
  }

  function Released(c: Counts, held: Option<Backend>): Counts
    requires CanRelease(c, held)
  {
    var total := c.total - 1;
    if held.None? || held.value !in c.backends then Counts(total, c.backends)
    else
      var left := c.backends[held.value] - 1;
      Counts(total, if left == 0 then c.backends - {held.value} else c.backends[held.value := left])
  }

  class PendingConnections {
    const maximum: nat
    const maximumBackend: nat
    var counts: Counts

    constructor (maximum: nat, maximumBackend: nat)
      requires 0 < maximumBackend <= maximum
      ensures this.maximum == maximum && this.maximumBackend == maximumBackend && counts == Counts(0, map[])
    {
      this.maximum, this.maximumBackend, counts := maximum, maximumBackend, Counts(0, map[]);
    }

    method Reserve() returns (ok: bool)
      modifies this
      ensures ok <==> old(counts).total < maximum
      ensures counts == if ok then Counts(old(counts).total + 1, old(counts).backends) else old(counts)
    {
      if counts.total >= maximum {
        return false;
      }
      counts := counts.(total := counts.total + 1);
      return true;
    }

    /** The entry is made before the limit is looked at, but a fresh entry is under it. */
    method Authenticate(held: Option<Backend>, b: Backend) returns (r: Option<Backend>)
      requires maximumBackend > 0
      modifies this
      ensures r == if CanAuthenticate(old(counts), held, b, maximumBackend) then Some(b) else held
      ensures counts == if CanAuthenticate(old(counts), held, b, maximumBackend)
                        then Counts(old(counts).total, old(counts).backends[b := CountOf(old(counts), b) + 1])
                        else old(counts)
    {
      if held.Some? || |b| == 0 || |b| > 256 {
        return held;
      }
      if b !in counts.backends {
        counts := counts.(backends := counts.backends[b := 0]);
      }
      var count := counts.backends[b];
      if count >= maximumBackend {
        return held;
      }
      counts := counts.(backends := counts.backends[b := count + 1]);
      return Some(b);
    }

    method Drop(held: Option<Backend>)
      requires CanRelease(counts, held)
      modifies this
      ensures counts == Released(old(counts), held)
    {
      counts := counts.(total := counts.total - 1);
      if held.Some? && held.value in counts.backends {
        var count := counts.backends[held.value] - 1;
        counts := counts.(backends := counts.backends[held.value := count]);
        if count == 0 {
          counts := counts.(backends := counts.backends - {held.value});
        }
      }
    }
  }

  // ----- reaping -----

  function SwapRemove<T>(s: seq<T>, i: nat): seq<T>
    requires i < |s|
  {
    var last := |s| - 1;
    if i == last then s[..last] else s[..last][i := s[last]]
  }

  lemma SwapRemoveMultiset<T>(s: seq<T>, i: nat)
    requires i < |s|
    ensures multiset(s) == multiset(SwapRemove(s, i)) + multiset{s[i]}
  {
    var last := |s| - 1;
    assert s == s[..last] + [s[last]];
  }

  lemma SwapRemoveDistinct<T>(s: seq<T>, i: nat)
    requires i < |s| && Distinct(s)
    ensures var r := SwapRemove(s, i);
            Distinct(r) && forall x :: x in r <==> x in s && x != s[i]
  {
    var r, last := SwapRemove(s, i), |s| - 1;
    forall x ensures x in r <==> x in s && x != s[i] {
      if x in s && x != s[i] {
        var k :| 0 <= k < |s| && s[k] == x;
        assert r[if k == last then i else k] == x;
      }
    }
  }

  /** The listener's pass over its workers.  Workers may finish while it runs: those in
      `before` had finished when it started, those in `after` by its end. */
  method Reap<T(==)>(admissions: seq<T>, before: set<T>, after: set<T>) returns (kept: seq<T>, joined: seq<T>)
    requires before <= after
    ensures multiset(kept) + multiset(joined) == multiset(admissions)
    ensures forall w :: w in joined ==> w in after
    ensures forall w :: w in kept ==> w !in before
  {
    kept, joined := admissions, [];
    var index := 0;
    while index < |kept|
      invariant 0 <= index <= |kept|
      invariant multiset(kept) + multiset(joined) == multiset(admissions)
      invariant forall w :: w in joined ==> w in after
      invariant forall i :: 0 <= i < index ==> kept[i] !in before
      decreases |kept| - index
    {
      var late: bool := *;
      if kept[index] in before || (late && kept[index] in after) {
        SwapRemoveMultiset(kept, index);
        joined := joined + [kept[index]];
        kept := SwapRemove(kept, index);
      } else {
        index := index + 1;
      }
    }
  }

  // ----- every interleaving -----

  /** An admission worker: spawned, holding a permit, delivering its connection after the
      permit has gone, or finished. */
  datatype Worker = Spawned | Holding(backend: Option<Backend>) | Delivering | Finished(refused: bool)

  /** Workers by spawn order; `admissions` are those the listener has not joined. */
  datatype State = State(counts: Counts, workers: seq<Worker>, admissions: seq<nat>)

  datatype Step =
    | Spawn                               // room for a worker: spawn and push it
    | Reserve(w: nat)
    | Authenticate(w: nat, backend: Backend)
    | Release(w: nat)                     // admitted or not, the permit is dropped
    | Return(w: nat)                      // the worker has delivered, or given up
    | Join(index: nat)                    // a finished worker is swapped out

  ghost predicate Enabled(s: State, step: Step, maximum: nat, maximumBackend: nat) {
    match step
    case Spawn => |s.admissions| < maximum
    case Reserve(w) => w < |s.workers| && s.workers[w].Spawned?
    case Authenticate(w, b) =>
      w < |s.workers| && s.workers[w].Holding? && CanAuthenticate(s.counts, s.workers[w].backend, b, maximumBackend)
    case Release(w) => w < |s.workers| && s.workers[w].Holding?
    case Return(w) => w < |s.workers| && s.workers[w].Delivering?
    case Join(i) => i < |s.admissions| && s.admissions[i] < |s.workers| && s.workers[s.admissions[i]].Finished?
  }

  ghost predicate Underflows(s: State, step: Step) {
    step.Release? && step.w < |s.workers| && s.workers[step.w].Holding? && !CanRelease(s.counts, s.workers[step.w].backend)
  }

  ghost function Apply(s: State, step: Step, maximum: nat, maximumBackend: nat): State
    requires Enabled(s, step, maximum, maximumBackend) && !Underflows(s, step)
  {
    match step
    case Spawn => State(s.counts, s.workers + [Spawned], s.admissions + [|s.workers|])
    case Reserve(w) =>
      if s.counts.total >= maximum then s.(workers := s.workers[w := Finished(true)])
      else s.(counts := s.counts.(total := s.counts.total + 1), workers := s.workers[w := Holding(None)])
    case Authenticate(w, b) =>
      s.(counts := s.counts.(backends := s.counts.backends[b := CountOf(s.counts, b) + 1]),
              workers := s.workers[w := Holding(Some(b))])
    case Release(w) =>
      s.(counts := Released(s.counts, s.workers[w].backend), workers := s.workers[w := Delivering])
    case Return(w) => s.(workers := s.workers[w := Finished(false)])
    case Join(i) => s.(admissions := SwapRemove(s.admissions, i))
  }

  /** How many workers satisfy a test. */
  ghost function Number(workers: seq<Worker>, test: Worker -> bool): nat {
    if workers == [] then 0 else Number(workers[..|workers| - 1], test) + if test(workers[|workers| - 1]) then 1 else 0
  }

  ghost function Holds(): Worker -> bool {
    (w: Worker) => w.Holding?
  }

  ghost function HoldsFor(b: Backend): Worker -> bool {
    (w: Worker) => w == Holding(Some(b))
  }

  lemma {:induction false} NumberUpdate(workers: seq<Worker>, i: nat, w: Worker, test: Worker -> bool)
    requires i < |workers|
    ensures Number(workers[i := w], test) + (if test(workers[i]) then 1 else 0) == Number(workers, test) + if test(w) then 1 else 0
    decreases |workers|
  {
    var n := |workers| - 1;
    if i == n {
      assert workers[i := w][..n] == workers[..n];
    } else {
      assert workers[i := w][..n] == workers[..n][i := w];
      NumberUpdate(workers[..n], i, w, test);
    }
  }

  lemma NumberAppend(workers: seq<Worker>, w: Worker, test: Worker -> bool)
    ensures Number(workers + [w], test) == Number(workers, test) + if test(w) then 1 else 0
  {
    assert (workers + [w])[..|workers|] == workers;
  }

  /** The indices of the workers that satisfy a test. */
  ghost function Where(workers: seq<Worker>, test: Worker -> bool): set<nat> {
    set i: nat | i < |workers| && test(workers[i])
  }

  lemma WhereLast(workers: seq<Worker>, w: Worker, test: Worker -> bool)
    ensures |Where(workers + [w], test)| == |Where(workers, test)| + if test(w) then 1 else 0
  {
    var init, n := Where(workers, test), |workers|;
    assert n !in init;
    forall i: nat ensures i in Where(workers + [w], test) <==> i in init || (i == n && test(w)) {
    }
    if test(w) {
      assert Where(workers + [w], test) == init + {n};
    } else {
      assert Where(workers + [w], test) == init;
    }
  }

  lemma {:induction false} NumberIsWhere(workers: seq<Worker>, test: Worker -> bool)
    ensures |Where(workers, test)| == Number(workers, test)
    decreases |workers|
  {
    if workers != [] {
      var n := |workers| - 1;
      NumberIsWhere(workers[..n], test);
      WhereLast(workers[..n], workers[n], test);
      assert workers == workers[..n] + [workers[n]];
    }
  }

  // ----- the invariant -----

  ghost predicate BackendOk(s: State, b: Backend, maximumBackend: nat) {
    && CountOf(s.counts, b) == Number(s.workers, HoldsFor(b)) <= maximumBackend
    && (b in s.counts.backends ==> s.counts.backends[b] >= 1)
  }

  /** Every unfinished worker is in the listener's list, once. */
  ghost predicate Tracked(s: State) {
    && (forall w: nat :: w < |s.workers| && !s.workers[w].Finished? ==> w in s.admissions)
    && (forall w :: w in s.admissions ==> w < |s.workers|)
    && Distinct(s.admissions)
  }

  ghost predicate NoneRefused(s: State) {
    forall w: nat :: w < |s.workers| ==> s.workers[w] != Finished(true)
  }

  ghost predicate Inv(s: State, maximum: nat, maximumBackend: nat) {
    && s.counts.total == Number(s.workers, Holds())
    && (forall b :: BackendOk(s, b, maximumBackend))
    && Tracked(s) && |s.admissions| <= maximum
    && NoneRefused(s)
  }

  lemma SmallerSet(a: set<nat>, b: set<nat>, x: nat)
    requires a <= b && x in b && x !in a
    ensures |a| < |b|
  {
    assert b == a + (b - a) && x in b - a;
  }

  /** A worker that has yet to reserve finds room: everyone who holds a permit is another
      worker the listener still counts. */
  lemma ReserveFindsRoom(s: State, w: nat, maximum: nat, maximumBackend: nat)
    requires Inv(s, maximum, maximumBackend) && w < |s.workers| && s.workers[w].Spawned?
    ensures s.counts.total < maximum
  {
    var holders := Where(s.workers, Holds());
    NumberIsWhere(s.workers, Holds());
    CardinalityDistinct(s.admissions);
    SmallerSet(holders, Elements(s.admissions), w);
  }

  lemma SpawnKeeps(s: State, maximum: nat, maximumBackend: nat)
    requires Inv(s, maximum, maximumBackend) && Enabled(s, Spawn, maximum, maximumBackend)
    ensures Inv(Apply(s, Spawn, maximum, maximumBackend), maximum, maximumBackend)
  {
    var t := Apply(s, Spawn, maximum, maximumBackend);
    NumberAppend(s.workers, Spawned, Holds());
    DistinctAppend(s.admissions, |s.workers|);
    forall b ensures BackendOk(t, b, maximumBackend) {
      assert BackendOk(s, b, maximumBackend);
      NumberAppend(s.workers, Spawned, HoldsFor(b));
    }
  }

  lemma JoinKeeps(s: State, step: Step, maximum: nat, maximumBackend: nat)
    requires Inv(s, maximum, maximumBackend) && step.Join? && Enabled(s, step, maximum, maximumBackend)
    ensures Inv(Apply(s, step, maximum, maximumBackend), maximum, maximumBackend)
  {
    var t := Apply(s, step, maximum, maximumBackend);
    SwapRemoveDistinct(s.admissions, step.index);
    forall b ensures BackendOk(t, b, maximumBackend) {
      assert BackendOk(s, b, maximumBackend);
    }
  }

  lemma ReserveKeeps(s: State, step: Step, maximum: nat, maximumBackend: nat)
    requires Inv(s, maximum, maximumBackend) && step.Reserve? && Enabled(s, step, maximum, maximumBackend)
    ensures Inv(Apply(s, step, maximum, maximumBackend), maximum, maximumBackend)
  {
    ReserveFindsRoom(s, step.w, maximum, maximumBackend);
    var t := Apply(s, step, maximum, maximumBackend);
    NumberUpdate(s.workers, step.w, Holding(None), Holds());
    forall b ensures BackendOk(t, b, maximumBackend) {
      assert BackendOk(s, b, maximumBackend);
      NumberUpdate(s.workers, step.w, Holding(None), HoldsFor(b));
    }
  }

  lemma AuthenticateKeeps(s: State, step: Step, maximum: nat, maximumBackend: nat)
    requires Inv(s, maximum, maximumBackend) && step.Authenticate? && Enabled(s, step, maximum, maximumBackend)
    ensures Inv(Apply(s, step, maximum, maximumBackend), maximum, maximumBackend)
  {
    var t := Apply(s, step, maximum, maximumBackend);
    var now := Holding(Some(step.backend));
    NumberUpdate(s.workers, step.w, now, Holds());
    forall b ensures BackendOk(t, b, maximumBackend) {
      assert BackendOk(s, b, maximumBackend);
      NumberUpdate(s.workers, step.w, now, HoldsFor(b));
    }
  }

  lemma ReleaseKeeps(s: State, step: Step, maximum: nat, maximumBackend: nat)
    requires Inv(s, maximum, maximumBackend) && step.Release? && Enabled(s, step, maximum, maximumBackend)
    ensures !Underflows(s, step) && Inv(Apply(s, step, maximum, maximumBackend), maximum, maximumBackend)
  {
    var done := Delivering;
    NumberUpdate(s.workers, step.w, done, Holds());
    var held := s.workers[step.w].backend;
    if held.Some? {
      assert BackendOk(s, held.value, maximumBackend);
      NumberUpdate(s.workers, step.w, done, HoldsFor(held.value));
    }
    var t := Apply(s, step, maximum, maximumBackend);
    forall b ensures BackendOk(t, b, maximumBackend) {
      assert BackendOk(s, b, maximumBackend);
      NumberUpdate(s.workers, step.w, done, HoldsFor(b));
    }
  }

  lemma ReturnKeeps(s: State, step: Step, maximum: nat, maximumBackend: nat)
    requires Inv(s, maximum, maximumBackend) && step.Return? && Enabled(s, step, maximum, maximumBackend)
    ensures Inv(Apply(s, step, maximum, maximumBackend), maximum, maximumBackend)
  {
    var t := Apply(s, step, maximum, maximumBackend);
    NumberUpdate(s.workers, step.w, Finished(false), Holds());
    forall b ensures BackendOk(t, b, maximumBackend) {
      assert BackendOk(s, b, maximumBackend);
      NumberUpdate(s.workers, step.w, Finished(false), HoldsFor(b));
    }
  }

  // ----- runs -----

  ghost predicate Next(states: seq<State>, steps: seq<Step>, maximum: nat, maximumBackend: nat, i: nat) {
    && i + 1 < |states| && i < |steps| && Enabled(states[i], steps[i], maximum, maximumBackend)
    && (!Underflows(states[i], steps[i]) ==> states[i + 1] == Apply(states[i], steps[i], maximum, maximumBackend))
  }

  ghost predicate Run(states: seq<State>, steps: seq<Step>, maximum: nat, maximumBackend: nat) {
    && |states| == |steps| + 1
    && states[0] == State(Counts(0, map[]), [], [])
    && forall i: nat :: i < |steps| ==> Next(states, steps, maximum, maximumBackend, i)
  }

  lemma StepKeeps(s: State, step: Step, maximum: nat, maximumBackend: nat)
    requires Inv(s, maximum, maximumBackend) && Enabled(s, step, maximum, maximumBackend)
    ensures !Underflows(s, step) && Inv(Apply(s, step, maximum, maximumBackend), maximum, maximumBackend)
  {
    match step
    case Spawn => SpawnKeeps(s, maximum, maximumBackend);
    case Reserve(_) => ReserveKeeps(s, step, maximum, maximumBackend);
    case Authenticate(_, _) => AuthenticateKeeps(s, step, maximum, maximumBackend);
    case Release(_) => ReleaseKeeps(s, step, maximum, maximumBackend);
    case Return(_) => ReturnKeeps(s, step, maximum, maximumBackend);
    case Join(_) => JoinKeeps(s, step, maximum, maximumBackend);
  }

  lemma {:induction false} RunKeeps(states: seq<State>, steps: seq<Step>, maximum: nat, maximumBackend: nat, i: nat)
    requires Run(states, steps, maximum, maximumBackend) && i < |states|
    ensures Inv(states[i], maximum, maximumBackend) && (i < |steps| ==> !Underflows(states[i], steps[i]))
    decreases i
  {
    if i > 0 {
      RunKeeps(states, steps, maximum, maximumBackend, i - 1);
      assert Next(states, steps, maximum, maximumBackend, i - 1);
      StepKeeps(states[i - 1], steps[i - 1], maximum, maximumBackend);
    } else {
      forall b ensures BackendOk(states[0], b, maximumBackend) {
      }
    }
    if i < |steps| {
      assert Next(states, steps, maximum, maximumBackend, i);
      StepKeeps(states[i], steps[i], maximum, maximumBackend);
    }
  }

  /** In every interleaving the workers the listener has yet to join are at most the maximum,
      the total is the live permits, each stored backend count is its
      live authenticated permits and lies between 1 and its maximum, no drop underflows, and
      no worker's reservation was ever refused. */
  lemma PendingConserved(states: seq<State>, steps: seq<Step>, maximum: nat, maximumBackend: nat, i: nat)
    requires Run(states, steps, maximum, maximumBackend) && i < |states|
    ensures var s := states[i];
            && s.counts.total == |Where(s.workers, Holds())| <= |s.admissions| <= maximum
            && (forall b :: b in s.counts.backends <==> Where(s.workers, HoldsFor(b)) != {})
            && (forall b :: b in s.counts.backends ==>
                  s.counts.backends[b] == |Where(s.workers, HoldsFor(b))| && 1 <= s.counts.backends[b] <= maximumBackend)
            && NoneRefused(s) && (i < |steps| ==> !Underflows(s, steps[i]))
  {
    RunKeeps(states, steps, maximum, maximumBackend, i);
    var s := states[i];
    NumberIsWhere(s.workers, Holds());
    CardinalityDistinct(s.admissions);
    assert Where(s.workers, Holds()) <= Elements(s.admissions);
    SubsetCardinality(Where(s.workers, Holds()), Elements(s.admissions));
    forall b ensures b in s.counts.backends <==> Where(s.workers, HoldsFor(b)) != {}
      ensures b in s.counts.backends ==>
                s.counts.backends[b] == |Where(s.workers, HoldsFor(b))| && 1 <= s.counts.backends[b] <= maximumBackend
    {
      assert BackendOk(s, b, maximumBackend);
      NumberIsWhere(s.workers, HoldsFor(b));
    }
  }


  // ----- nothing is kept for ever -----

  /** `t` is where the steps lead from `s`. */
  ghost predicate Leads(s: State, steps: seq<Step>, t: State, maximum: nat, maximumBackend: nat)
    decreases |steps|
  {
    if steps == [] then s == t
    else
      && Enabled(s, steps[0], maximum, maximumBackend) && !Underflows(s, steps[0])
      && Leads(Apply(s, steps[0], maximum, maximumBackend), steps[1..], t, maximum, maximumBackend)
  }

  ghost function IsSpawned(): Worker -> bool {
    (w: Worker) => w.Spawned?
  }

  ghost function IsDelivering(): Worker -> bool {
    (w: Worker) => w.Delivering?
  }

  /** Steps the workers and the listener still have to take. */
  ghost function ToDo(s: State): nat {
    3 * Number(s.workers, IsSpawned()) + 2 * Number(s.workers, Holds()) + Number(s.workers, IsDelivering()) + |s.admissions|
  }

  ghost predicate Empty(s: State) {
    s.counts == Counts(0, map[]) && s.admissions == [] && forall w: nat :: w < |s.workers| ==> s.workers[w] == Finished(false)
  }

  /** What the worker or, once it has finished, the listener does next. */
  function NextFor(s: State, index: nat): Step
    requires index < |s.admissions| && s.admissions[index] < |s.workers|
  {
    var w := s.admissions[index];
    match s.workers[w]
    case Spawned => Reserve(w)
    case Holding(_) => Release(w)
    case Delivering => Return(w)
    case Finished(_) => Join(index)
  }

  lemma NextForDoes(s: State, index: nat, maximum: nat, maximumBackend: nat)
    requires Inv(s, maximum, maximumBackend) && index < |s.admissions|
    ensures s.admissions[index] < |s.workers|
    ensures var step := NextFor(s, index);
            && Enabled(s, step, maximum, maximumBackend) && !Underflows(s, step)
            && Inv(Apply(s, step, maximum, maximumBackend), maximum, maximumBackend)
            && ToDo(Apply(s, step, maximum, maximumBackend)) < ToDo(s)
  {
    assert s.admissions[index] in s.admissions;
    var w, step := s.admissions[index], NextFor(s, index);
    StepKeeps(s, step, maximum, maximumBackend);
    if step.Reserve? {
      ReserveFindsRoom(s, w, maximum, maximumBackend);
      NumberMoves(s.workers, w, Holding(None));
    } else if step.Release? {
      NumberMoves(s.workers, w, Delivering);
    } else if step.Return? {
      NumberMoves(s.workers, w, Finished(false));
    }
  }

  lemma NumberMoves(workers: seq<Worker>, i: nat, w: Worker)
    requires i < |workers|
    ensures Number(workers[i := w], IsSpawned()) + (if workers[i].Spawned? then 1 else 0) ==
            Number(workers, IsSpawned()) + if w.Spawned? then 1 else 0
    ensures Number(workers[i := w], Holds()) + (if workers[i].Holding? then 1 else 0) ==
            Number(workers, Holds()) + if w.Holding? then 1 else 0
    ensures Number(workers[i := w], IsDelivering()) + (if workers[i].Delivering? then 1 else 0) ==
            Number(workers, IsDelivering()) + if w.Delivering? then 1 else 0
  {
    NumberUpdate(workers, i, w, IsSpawned());
    NumberUpdate(workers, i, w, Holds());
    NumberUpdate(workers, i, w, IsDelivering());
  }

  lemma NobodyLeft(s: State, maximum: nat, maximumBackend: nat)
    requires Inv(s, maximum, maximumBackend) && s.admissions == []
    ensures Empty(s)
  {
    NumberIsWhere(s.workers, Holds());
    assert Where(s.workers, Holds()) == {};
    forall b ensures b !in s.counts.backends {
      assert BackendOk(s, b, maximumBackend);
      NumberIsWhere(s.workers, HoldsFor(b));
      assert Where(s.workers, HoldsFor(b)) == {};
    }
  }

  lemma {:induction false} Drains(s: State, maximum: nat, maximumBackend: nat) returns (steps: seq<Step>, t: State)
    requires Inv(s, maximum, maximumBackend)
    ensures Leads(s, steps, t, maximum, maximumBackend) && Empty(t) && |t.workers| == |s.workers| && |steps| <= ToDo(s)
    decreases ToDo(s)
  {
    if s.admissions == [] {
      NobodyLeft(s, maximum, maximumBackend);
      steps, t := [], s;
    } else {
      NextForDoes(s, 0, maximum, maximumBackend);
      var step := NextFor(s, 0);
      var more;
      more, t := Drains(Apply(s, step, maximum, maximumBackend), maximum, maximumBackend);
      steps := [step] + more;
      assert steps[1..] == more;
    }
  }

  /** From every state of every run, the workers' own steps and the listener's joins, without a
      new connection, lead to one where all counts and entries are gone and every worker has
      finished, none of them refused: no permit is lost. */
  lemma EveryRunDrains(states: seq<State>, steps: seq<Step>, maximum: nat, maximumBackend: nat, i: nat)
    requires Run(states, steps, maximum, maximumBackend) && i < |states|
    ensures exists more, t :: Leads(states[i], more, t, maximum, maximumBackend) && Empty(t) && |t.workers| == |states[i].workers|
  {
    RunKeeps(states, steps, maximum, maximumBackend, i);
    var more, t := Drains(states[i], maximum, maximumBackend);
  }


  // ----- from its authentication to its release -----

  lemma NextState(states: seq<State>, steps: seq<Step>, maximum: nat, maximumBackend: nat, i: nat)
    requires Run(states, steps, maximum, maximumBackend) && i < |steps|
    ensures Enabled(states[i], steps[i], maximum, maximumBackend) && !Underflows(states[i], steps[i])
    ensures states[i + 1] == Apply(states[i], steps[i], maximum, maximumBackend)
  {
    RunKeeps(states, steps, maximum, maximumBackend, i);
    assert Next(states, steps, maximum, maximumBackend, i);
  }

  /** A worker that has authenticated holds its permit for that backend, which is counted,
      until it releases it, whatever the others do. */
  lemma {:induction false} HeldUntilReleased(states: seq<State>, steps: seq<Step>, maximum: nat, maximumBackend: nat,
                                             j: nat, i: nat, w: nat, b: Backend)
    requires Run(states, steps, maximum, maximumBackend) && j < i < |states| && steps[j] == Authenticate(w, b)
    requires forall k :: j < k < i ==> steps[k] != Release(w)
    ensures w < |states[i].workers| && states[i].workers[w] == Holding(Some(b))
    ensures b in states[i].counts.backends && states[i].counts.backends[b] >= 1 && states[i].counts.total >= 1
    decreases i
  {
    NextState(states, steps, maximum, maximumBackend, i - 1);
    if j + 1 < i {
      HeldUntilReleased(states, steps, maximum, maximumBackend, j, i - 1, w, b);
      var step := steps[i - 1];
      assert step != Release(w);
    }
    PendingConserved(states, steps, maximum, maximumBackend, i);
    var s := states[i];
    assert w in Where(s.workers, HoldsFor(b)) && w in Where(s.workers, Holds());
  }

  ghost function Spawns(steps: seq<Step>, k: nat): nat
    requires k <= |steps|
  {
    if k == 0 then 0 else Spawns(steps, k - 1) + if steps[k - 1].Spawn? then 1 else 0
  }

  /** There is a worker for every connection the listener took. */
  lemma {:induction false} OneWorkerEach(states: seq<State>, steps: seq<Step>, maximum: nat, maximumBackend: nat, i: nat)
    requires Run(states, steps, maximum, maximumBackend) && i < |states|
    ensures |states[i].workers| == Spawns(steps, i)
    decreases i
  {
    if i > 0 {
      OneWorkerEach(states, steps, maximum, maximumBackend, i - 1);
      NextState(states, steps, maximum, maximumBackend, i - 1);
    }
  }
}
