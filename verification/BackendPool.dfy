/** Backend pools: targets chosen by priority among those with a free permit, a ledger of
    permits that pool generations share across reloads, and permits that give their slot
    back when dropped. */
module BackendPool {
  import opened Basics

  type Name = string

  datatype Target = Target(name: Name, system: string, features: set<string>, mandatory: set<string>, priority: nat)

  datatype Permits = Permits(maximum: nat, active: nat)

  type Ledger = map<Name, Permits>

  predicate Supports(t: Target, system: string, required: set<string>) {
    t.system == system && required <= t.features && t.mandatory <= required
  }

  // ----- choosing a target -----

  /** The first of the eligible targets of highest priority. */
  ghost predicate Preferred(targets: seq<Target>, eligible: Target -> bool, i: nat) {
    && i < |targets| && eligible(targets[i])
    && (forall j :: 0 <= j < |targets| && eligible(targets[j]) ==> targets[j].priority <= targets[i].priority)
    && (forall j :: 0 <= j < i && eligible(targets[j]) ==> targets[j].priority < targets[i].priority)
  }

  ghost predicate NoneEligible(targets: seq<Target>, eligible: Target -> bool) {
    forall j :: 0 <= j < |targets| ==> !eligible(targets[j])
  }

  /** The fold over the targets in order: a later one wins only with a higher priority. */
  method Select(targets: seq<Target>, eligible: Target -> bool) returns (r: Option<nat>)
    ensures r.None? <==> NoneEligible(targets, eligible)
    ensures r.Some? ==> Preferred(targets, eligible, r.value)
  {
    r := None;
    for i := 0 to |targets|
      invariant r.None? <==> NoneEligible(targets[..i], eligible)
      invariant r.Some? ==> r.value < i && Preferred(targets[..i], eligible, r.value)
    {
      if eligible(targets[i]) && (r.None? || targets[r.value].priority < targets[i].priority) {
        r := Some(i);
      }
    }
    assert targets[..|targets|] == targets;
  }

  // ----- one ledger -----

  predicate Free(ledger: Ledger, name: Name) {
    name in ledger && ledger[name].active < ledger[name].maximum
  }

  function Take(ledger: Ledger, name: Name): Ledger
    requires name in ledger
  {
    ledger[name := ledger[name].(active := ledger[name].active + 1)]
  }

  function Give(ledger: Ledger, name: Name): Ledger
    requires name in ledger && ledger[name].active > 0
  {
    ledger[name := ledger[name].(active := ledger[name].active - 1)]
  }

  ghost predicate Named(targets: seq<Target>, ledger: Ledger) {
    forall t :: t in targets ==> t.name in ledger
  }

  ghost predicate DistinctNames(targets: seq<Target>) {
    forall i, j :: 0 <= i < j < |targets| ==> targets[i].name != targets[j].name
  }

  /** A new pool's ledger: every target idle at its maximum. */
  ghost predicate IsInitial(ledger: Ledger, targets: seq<Target>, maximums: seq<nat>)
    requires |targets| == |maximums|
  {
    && (forall n :: n in ledger ==> exists i :: 0 <= i < |targets| && targets[i].name == n)
    && (forall i :: 0 <= i < |targets| ==> targets[i].name in ledger && ledger[targets[i].name] == Permits(maximums[i], 0))
  }

  ghost predicate Poolable(targets: seq<Target>, maximums: seq<nat>) {
    targets != [] && |targets| == |maximums| && 0 !in maximums && DistinctNames(targets)
  }

  /** `BackendPool::new`. */
  method Configure(targets: seq<Target>, maximums: seq<nat>) returns (r: Option<Ledger>)
    ensures r.Some? <==> Poolable(targets, maximums)
    ensures r.Some? ==> IsInitial(r.value, targets, maximums)
  {
    if targets == [] || |targets| != |maximums| || 0 in maximums {
      return None;
    }
    var names: set<Name> := {};
    for i := 0 to |targets|
      invariant DistinctNames(targets[..i])
      invariant forall n :: n in names <==> exists j :: 0 <= j < i && targets[j].name == n
    {
      if targets[i].name in names {
        return None;
      }
      names := names + {targets[i].name};
    }
    assert targets[..|targets|] == targets;
    var ledger: Ledger := map[];
    for i := 0 to |targets|
      invariant forall n :: n in ledger ==> exists j :: 0 <= j < i && targets[j].name == n
      invariant forall j :: 0 <= j < i ==> targets[j].name in ledger && ledger[targets[j].name] == Permits(maximums[j], 0)
    {
      ledger := ledger[targets[i].name := Permits(maximums[i], 0)];
    }
    return Some(ledger);
  }

  // ----- reload -----

  predicate Agree(desired: Ledger, retained: Ledger) {
    forall n :: n in desired && n in retained ==> retained[n].maximum == desired[n].maximum
  }

  /** The retained entries, and the desired ones that were missing. */
  function Merge(desired: Ledger, retained: Ledger): (r: Ledger)
    ensures r.Keys == desired.Keys + retained.Keys
    ensures forall n :: n in r ==> r[n] == if n in retained then retained[n] else desired[n]
  {
    desired + retained
  }

  /** `retain_capacity` on the two locked ledgers: a check of every name, then the inserts. */
  method RetainCapacity(desired: Ledger, retained: Ledger) returns (r: Ledger, accepted: bool)
    ensures accepted <==> Agree(desired, retained)
    ensures r == if accepted then Merge(desired, retained) else retained
  {
    r := retained;
    var todo := desired.Keys;
    while todo != {}
      invariant todo <= desired.Keys
      invariant forall n :: n in desired && n in retained && n !in todo ==> retained[n].maximum == desired[n].maximum
    {
      var n :| n in todo;
      if n in r && r[n].maximum != desired[n].maximum {
        return retained, false;
      }
      todo := todo - {n};
    }
    todo := desired.Keys;
    while todo != {}
      invariant todo <= desired.Keys
      invariant r.Keys == retained.Keys + (desired.Keys - todo)
      invariant forall n :: n in r ==> r[n] == if n in retained then retained[n] else desired[n]
    {
      var n :| n in todo;
      if n !in r {
        r := r[n := desired[n]];
      }
      todo := todo - {n};
    }
    assert r == Merge(desired, retained);
    accepted := true;
  }

  // ----- a pool and its ledger as objects -----

  class SharedLedger {
    var permits: Ledger
    constructor (permits: Ledger)
      ensures this.permits == permits
    {
      this.permits := permits;
    }
  }

  /** Another system, a required feature it lacks, or a mandatory one that is not required. */
  ghost predicate Misfit(t: Target, system: string, required: set<string>) {
    || t.system != system
    || (exists f :: f in required && f !in t.features)
    || (exists m :: m in t.mandatory && m !in required)
  }

  lemma MisfitIff(targets: seq<Target>, system: string, required: set<string>)
    ensures forall i :: 0 <= i < |targets| ==> (Misfit(targets[i], system, required) <==> !Supports(targets[i], system, required))
  {
  }

  /** No misfit, available, and with fewer active permits than its maximum. */
  ghost predicate Qualifies(t: Target, system: string, required: set<string>, available: Target -> bool, permits: Ledger) {
    !Misfit(t, system, required) && available(t) && t.name in permits && permits[t.name].active < permits[t.name].maximum
  }

  /** The entry of `name` counts one more active permit, and nothing else has changed. */
  ghost predicate OneMoreActive(before: Ledger, after: Ledger, name: Name) {
    && after.Keys == before.Keys && name in before
    && after[name].active == before[name].active + 1 && after[name].maximum == before[name].maximum
    && forall n :: n in before && n != name ==> after[n] == before[n]
  }

  datatype Attempt = Incompatible | NotReady | Busy | Acquired(index: nat)

  /** The choice in terms of `Supports`. */
  ghost predicate IsChoice(targets: seq<Target>, system: string, required: set<string>, available: Target -> bool, permits: Ledger,
                           r: Attempt) {
    var supported := (t: Target) => Supports(t, system, required);
    var ready := (t: Target) => Supports(t, system, required) && available(t);
    var free := (t: Target) => Supports(t, system, required) && available(t) && Free(permits, t.name);
    match r
    case Incompatible => NoneEligible(targets, supported)
    case NotReady => !NoneEligible(targets, supported) && NoneEligible(targets, ready)
    case Busy => !NoneEligible(targets, ready) && NoneEligible(targets, free)
    case Acquired(i) => Preferred(targets, free, i)
  }

  method Choose(targets: seq<Target>, system: string, required: set<string>, available: Target -> bool, permits: Ledger)
    returns (r: Attempt)
    ensures IsChoice(targets, system, required, available, permits, r)
  {
    var compatible := Select(targets, t => Supports(t, system, required));
    if compatible.None? {
      return Incompatible;
    }
    var preferred := Select(targets, t => Supports(t, system, required) && available(t));
    if preferred.None? {
      return NotReady;
    }
    var index := Select(targets, t => Supports(t, system, required) && available(t) && Free(permits, t.name));
    if index.None? {
      return Busy;
    }
    return Acquired(index.value);
  }

  ghost predicate AllMisfit(targets: seq<Target>, system: string, required: set<string>) {
    forall i :: 0 <= i < |targets| ==> Misfit(targets[i], system, required)
  }

  ghost predicate NoneAvailable(targets: seq<Target>, system: string, required: set<string>, available: Target -> bool) {
    forall i :: 0 <= i < |targets| && available(targets[i]) ==> Misfit(targets[i], system, required)
  }

  ghost predicate NoneQualifies(targets: seq<Target>, system: string, required: set<string>, available: Target -> bool, permits: Ledger) {
    forall i :: 0 <= i < |targets| ==> !Qualifies(targets[i], system, required, available, permits)
  }

  /** Every other target that qualifies has a lower priority, or the same and comes later. */
  ghost predicate BestQualifies(targets: seq<Target>, system: string, required: set<string>, available: Target -> bool,
                                permits: Ledger, k: nat) {
    && k < |targets| && Qualifies(targets[k], system, required, available, permits)
    && forall i :: 0 <= i < |targets| && i != k && Qualifies(targets[i], system, required, available, permits) ==>
         targets[i].priority < targets[k].priority || (targets[i].priority == targets[k].priority && k < i)
  }

  lemma ChoiceMeans(targets: seq<Target>, system: string, required: set<string>, available: Target -> bool, permits: Ledger, r: Attempt)
    requires IsChoice(targets, system, required, available, permits, r)
    ensures r.Incompatible? <==> AllMisfit(targets, system, required)
    ensures r.NotReady? <==> !r.Incompatible? && NoneAvailable(targets, system, required, available)
    ensures r.Busy? <==> !r.Incompatible? && !r.NotReady? && NoneQualifies(targets, system, required, available, permits)
    ensures r.Acquired? ==> BestQualifies(targets, system, required, available, permits, r.index)
  {
    MisfitIff(targets, system, required);
  }

  class Pool {
    const targets: seq<Target>
    const ledger: SharedLedger

    constructor (targets: seq<Target>, ledger: SharedLedger)
      ensures this.targets == targets && this.ledger == ledger
    {
      this.targets, this.ledger := targets, ledger;
    }

    ghost predicate Valid()
      reads ledger
    {
      Named(targets, ledger.permits)
    }

    /** `acquire_where`, one turn of its loop under the lock; `Busy` is where it waits.  The
        target taken has the request's system, every required feature, no mandatory feature
        that is not required, is available and has a free permit; of all such it is the first
        of the highest priority. */
    method TryAcquire(system: string, required: set<string>, available: Target -> bool) returns (r: Attempt)
      requires Valid()
      modifies ledger
      ensures Valid()
      ensures r.Incompatible? <==> AllMisfit(targets, system, required)
      ensures r.NotReady? <==> !r.Incompatible? && NoneAvailable(targets, system, required, available)
      ensures r.Busy? <==> !r.Incompatible? && !r.NotReady?
                           && NoneQualifies(targets, system, required, available, old(ledger.permits))
      ensures r.Acquired? ==> BestQualifies(targets, system, required, available, old(ledger.permits), r.index)
      ensures r.Acquired? ==> OneMoreActive(old(ledger.permits), ledger.permits, targets[r.index].name)
      ensures !r.Acquired? ==> ledger.permits == old(ledger.permits)
    {
      r := Choose(targets, system, required, available, ledger.permits);
      ChoiceMeans(targets, system, required, available, ledger.permits, r);
      if r.Acquired? {
        ledger.permits := Take(ledger.permits, targets[r.index].name);
      }
    }

    /** `acquire_index`, one turn under the lock: the lookup hits, and a full target waits. */
    method TryAcquireIndex(index: nat) returns (acquired: bool)
      requires Valid() && index < |targets|
      modifies ledger
      ensures Valid()
      ensures acquired <==> Free(old(ledger.permits), targets[index].name)
      ensures ledger.permits == if acquired then Take(old(ledger.permits), targets[index].name) else old(ledger.permits)
    {
      var selected := ledger.permits[targets[index].name];
      acquired := selected.active < selected.maximum;
      if acquired {
        ledger.permits := ledger.permits[targets[index].name := selected.(active := selected.active + 1)];
      }
    }

    /** Dropping a permit for `index`. */
    method Release(index: nat)
      requires Valid() && index < |targets| && ledger.permits[targets[index].name].active > 0
      modifies ledger
      ensures Valid() && ledger.permits == Give(old(ledger.permits), targets[index].name)
    {
      var selected := ledger.permits[targets[index].name];
      ledger.permits := ledger.permits[targets[index].name := selected.(active := selected.active - 1)];
    }
  }

  /** `retain_capacity`: the candidate's targets over the current ledger.  Both ledgers are
      locked at once, so they must be two. */
  method Reload(candidate: Pool, current: Pool) returns (r: Option<Pool>)
    requires candidate.Valid() && current.Valid() && candidate.ledger != current.ledger
    modifies current.ledger
    ensures current.Valid()
    ensures r.Some? <==> Agree(candidate.ledger.permits, old(current.ledger.permits))
    ensures current.ledger.permits ==
            if r.Some? then Merge(candidate.ledger.permits, old(current.ledger.permits)) else old(current.ledger.permits)
    ensures r.Some? ==> fresh(r.value) && r.value.Valid() && r.value.targets == candidate.targets && r.value.ledger == current.ledger
  {
    var merged, accepted := RetainCapacity(candidate.ledger.permits, current.ledger.permits);
    if !accepted {
      return None;
    }
    current.ledger.permits := merged;
    var pool := new Pool(candidate.targets, current.ledger);
    return Some(pool);
  }

  // ----- every run -----

  /** A pool generation: its targets and which ledger it counts in. */
  datatype Generation = Generation(targets: seq<Target>, ledger: nat)

  datatype Permit = Permit(pool: Generation, index: nat)

  datatype State = State(ledgers: seq<Ledger>, pools: set<Generation>, live: seq<Permit>)

  datatype Step =
    | Create(targets: seq<Target>, maximums: seq<nat>, ledger: Ledger)
    | Acquire(pool: Generation, index: nat)
    | Drop(permit: nat)
    | Replace(candidate: Generation, current: Generation)

  ghost predicate HasName(p: Permit, ledger: nat, name: Name) {
    p.pool.ledger == ledger && p.index < |p.pool.targets| && p.pool.targets[p.index].name == name
  }

  /** Live permits for a name in a ledger, whichever generation handed them out. */
  ghost function Held(live: seq<Permit>, ledger: nat, name: Name): nat {
    if live == [] then 0 else Held(live[1..], ledger, name) + if HasName(live[0], ledger, name) then 1 else 0
  }

  lemma {:induction false} HeldConcat(a: seq<Permit>, b: seq<Permit>, ledger: nat, name: Name)
    ensures Held(a + b, ledger, name) == Held(a, ledger, name) + Held(b, ledger, name)
    decreases |a|
  {
    if a == [] {
      assert a + b == b;
    } else {
      assert (a + b)[1..] == a[1..] + b;
      HeldConcat(a[1..], b, ledger, name);
    }
  }

  lemma HeldAppend(live: seq<Permit>, p: Permit, ledger: nat, name: Name)
    ensures Held(live + [p], ledger, name) == Held(live, ledger, name) + if HasName(p, ledger, name) then 1 else 0
  {
    HeldConcat(live, [p], ledger, name);
    assert [p][1..] == [];
  }

  lemma HeldMiddle(a: seq<Permit>, p: Permit, b: seq<Permit>, ledger: nat, name: Name)
    ensures Held(a + ([p] + b), ledger, name) == Held(a + b, ledger, name) + if HasName(p, ledger, name) then 1 else 0
  {
    HeldConcat(a, [p] + b, ledger, name);
    HeldConcat(a, b, ledger, name);
    assert ([p] + b)[1..] == b;
  }

  lemma HeldWithout(live: seq<Permit>, i: nat, ledger: nat, name: Name)
    requires i < |live|
    ensures Held(live, ledger, name) == Held(Without(live, i), ledger, name) + if HasName(live[i], ledger, name) then 1 else 0
  {
    SplitsAt(live, i);
    HeldMiddle(live[..i], live[i], live[i + 1..], ledger, name);
  }

  ghost predicate Enabled(s: State, step: Step) {
    match step
    case Create(targets, maximums, ledger) => Poolable(targets, maximums) && IsInitial(ledger, targets, maximums)
    case Acquire(pool, index) =>
      pool in s.pools && pool.ledger < |s.ledgers| && index < |pool.targets| && Free(s.ledgers[pool.ledger], pool.targets[index].name)
    case Drop(i) => i < |s.live|
    case Replace(candidate, current) =>
      candidate in s.pools && current in s.pools && candidate.ledger < |s.ledgers| && current.ledger < |s.ledgers|
      && candidate.ledger != current.ledger
  }

  /** Rust panics where a lookup misses or a counter underflows. */
  ghost predicate Panics(s: State, step: Step) {
    match step
    case Acquire(pool, _) => pool.ledger < |s.ledgers| && !Named(pool.targets, s.ledgers[pool.ledger])
    case Drop(i) =>
      i < |s.live| &&
      var p := s.live[i];
      !(p.pool.ledger < |s.ledgers| && p.index < |p.pool.targets|
        && p.pool.targets[p.index].name in s.ledgers[p.pool.ledger]
        && s.ledgers[p.pool.ledger][p.pool.targets[p.index].name].active > 0)
    case _ => false
  }

  ghost function Apply(s: State, step: Step): State
    requires Enabled(s, step) && !Panics(s, step)
  {
    match step
    case Create(targets, _, ledger) =>
      State(s.ledgers + [ledger], s.pools + {Generation(targets, |s.ledgers|)}, s.live)
    case Acquire(pool, index) =>
      s.(ledgers := s.ledgers[pool.ledger := Take(s.ledgers[pool.ledger], pool.targets[index].name)],
         live := s.live + [Permit(pool, index)])
    case Drop(i) =>
      var p := s.live[i];
      s.(ledgers := s.ledgers[p.pool.ledger := Give(s.ledgers[p.pool.ledger], p.pool.targets[p.index].name)],
         live := Without(s.live, i))
    case Replace(candidate, current) =>
      var desired, retained := s.ledgers[candidate.ledger], s.ledgers[current.ledger];
      if !Agree(desired, retained) then s
      else s.(ledgers := s.ledgers[current.ledger := Merge(desired, retained)],
              pools := s.pools + {Generation(candidate.targets, current.ledger)})
  }

  // ----- the invariant -----

  ghost predicate PoolOk(s: State, p: Generation) {
    p.ledger < |s.ledgers| && Named(p.targets, s.ledgers[p.ledger])
  }

  ghost predicate PermitOk(s: State, p: Permit) {
    PoolOk(s, p.pool) && p.index < |p.pool.targets|
  }

  ghost predicate EntryOk(s: State, l: nat, name: Name)
    requires l < |s.ledgers| && name in s.ledgers[l]
  {
    && s.ledgers[l][name].active == Held(s.live, l, name)
    && s.ledgers[l][name].active <= s.ledgers[l][name].maximum
  }

  ghost predicate Counts(s: State, l: nat)
    requires l < |s.ledgers|
  {
    forall name :: name in s.ledgers[l] ==> EntryOk(s, l, name)
  }

  ghost predicate Inv(s: State) {
    && (forall p :: p in s.pools ==> PoolOk(s, p))
    && (forall i :: 0 <= i < |s.live| ==> PermitOk(s, s.live[i]))
    && (forall l :: 0 <= l < |s.ledgers| ==> Counts(s, l))
  }

  lemma {:induction false} HeldNone(live: seq<Permit>, ledger: nat, name: Name)
    requires forall i :: 0 <= i < |live| ==> !HasName(live[i], ledger, name)
    ensures Held(live, ledger, name) == 0
    decreases |live|
  {
    if live != [] {
      HeldNone(live[1..], ledger, name);
    }
  }

  lemma CreateKeeps(s: State, step: Step)
    requires Inv(s) && step.Create? && Enabled(s, step)
    ensures Inv(Apply(s, step))
  {
    var t := Apply(s, step);
    var l := |s.ledgers|;
    forall name | name in t.ledgers[l] ensures EntryOk(t, l, name) {
      HeldNone(s.live, l, name);
    }
    forall k | 0 <= k < l ensures Counts(t, k) {
      assert Counts(s, k);
    }
    forall i | 0 <= i < |t.live| ensures PermitOk(t, t.live[i]) {
      assert PermitOk(s, s.live[i]);
    }
    forall p | p in t.pools ensures PoolOk(t, p) {
      if p in s.pools { assert PoolOk(s, p); }
    }
  }

  lemma AcquireKeeps(s: State, step: Step)
    requires Inv(s) && step.Acquire? && Enabled(s, step) && !Panics(s, step)
    ensures Inv(Apply(s, step))
  {
    var t := Apply(s, step);
    var p := Permit(step.pool, step.index);
    assert PoolOk(s, step.pool);
    forall k, name | 0 <= k < |t.ledgers| && name in t.ledgers[k] ensures EntryOk(t, k, name) {
      assert Counts(s, k) && EntryOk(s, k, name);
      HeldAppend(s.live, p, k, name);
    }
    forall q | PoolOk(s, q) ensures PoolOk(t, q) {
    }
    forall i | 0 <= i < |t.live| ensures PermitOk(t, t.live[i]) {
      if i < |s.live| { assert PermitOk(s, s.live[i]); }
    }
  }

  /** A live permit's drop finds its entry and a positive count. */
  lemma DropIsSafe(s: State, i: nat)
    requires Inv(s) && i < |s.live|
    ensures !Panics(s, Drop(i))
  {
    var p := s.live[i];
    assert PermitOk(s, p);
    assert Counts(s, p.pool.ledger) && EntryOk(s, p.pool.ledger, p.pool.targets[p.index].name);
    HeldWithout(s.live, i, p.pool.ledger, p.pool.targets[p.index].name);
  }

  lemma DropKeeps(s: State, step: Step)
    requires Inv(s) && step.Drop? && Enabled(s, step) && !Panics(s, step)
    ensures Inv(Apply(s, step))
  {
    var t := Apply(s, step);
    var p := s.live[step.permit];
    forall k, name | 0 <= k < |t.ledgers| && name in t.ledgers[k] ensures EntryOk(t, k, name) {
      assert Counts(s, k) && EntryOk(s, k, name);
      HeldWithout(s.live, step.permit, k, name);
    }
    forall q | PoolOk(s, q) ensures PoolOk(t, q) {
    }
    forall i | 0 <= i < |t.live| ensures PermitOk(t, t.live[i]) {
      assert t.live[i] == s.live[if i < step.permit then i else i + 1];
      assert PermitOk(s, t.live[i]);
    }
  }

  /** Names that a reload brings into the current ledger carry no live permits there. */
  lemma NewNamesUnheld(s: State, l: nat, name: Name)
    requires Inv(s) && l < |s.ledgers| && name !in s.ledgers[l]
    ensures Held(s.live, l, name) == 0
  {
    forall i | 0 <= i < |s.live| ensures !HasName(s.live[i], l, name) {
      assert PermitOk(s, s.live[i]);
    }
    HeldNone(s.live, l, name);
  }

  /** What a caller can check before a reload: every entry it would bring in is idle. */
  ghost predicate BringsIdle(s: State, candidate: Generation, current: Generation)
    requires candidate.ledger < |s.ledgers| && current.ledger < |s.ledgers|
  {
    var desired, retained := s.ledgers[candidate.ledger], s.ledgers[current.ledger];
    forall n :: n in desired && n !in retained ==> desired[n].active == 0
  }

  /** A reload keeps the count of live permits exactly when it is rejected or brings in
      idle entries only. */
  lemma ReplaceKeepsIff(s: State, step: Step)
    requires Inv(s) && step.Replace? && Enabled(s, step)
    ensures var desired, retained := s.ledgers[step.candidate.ledger], s.ledgers[step.current.ledger];
            Inv(Apply(s, step)) <==> !Agree(desired, retained) || BringsIdle(s, step.candidate, step.current)
  {
    var t := Apply(s, step);
    var c, l := step.candidate.ledger, step.current.ledger;
    var desired, retained := s.ledgers[c], s.ledgers[l];
    assert Counts(s, c) && Counts(s, l);
    if Agree(desired, retained) {
      forall q | PoolOk(s, q) ensures PoolOk(t, q) {
      }
      assert PoolOk(s, step.candidate) && PoolOk(t, Generation(step.candidate.targets, l));
      forall i | 0 <= i < |t.live| ensures PermitOk(t, t.live[i]) {
        assert PermitOk(s, s.live[i]);
      }
      forall k | 0 <= k < |t.ledgers| && k != l ensures Counts(t, k) {
        assert Counts(s, k);
        forall name | name in t.ledgers[k] ensures EntryOk(t, k, name) {
          assert EntryOk(s, k, name);
        }
      }
      forall name | name in t.ledgers[l]
        ensures EntryOk(t, l, name) <==> (name in retained || desired[name].active == 0)
      {
        if name in retained {
          assert EntryOk(s, l, name);
        } else {
          assert EntryOk(s, c, name);
          NewNamesUnheld(s, l, name);
        }
      }
      if BringsIdle(s, step.candidate, step.current) {
        assert Counts(t, l);
      } else {
        var n :| n in desired && n !in retained && desired[n].active != 0;
        assert !EntryOk(t, l, n);
        assert !Counts(t, l);
      }
    }
  }

  // ----- runs -----

  ghost predicate Fresh(s: State, step: Step) {
    step.Replace? ==> forall i :: 0 <= i < |s.live| ==> s.live[i].pool.ledger != step.candidate.ledger
  }

  ghost predicate Next(states: seq<State>, steps: seq<Step>, i: nat) {
    && i + 1 < |states| && i < |steps|
    && Enabled(states[i], steps[i]) && Fresh(states[i], steps[i])
    && (!Panics(states[i], steps[i]) ==> states[i + 1] == Apply(states[i], steps[i]))
  }

  /** A run of creations, acquires, drops and reloads with a candidate nobody holds a
      permit of; after a panic anything may follow. */
  ghost predicate Run(states: seq<State>, steps: seq<Step>) {
    && |states| == |steps| + 1
    && states[0] == State([], {}, [])
    && forall i: nat :: i < |steps| ==> Next(states, steps, i)
  }

  lemma StepKeeps(s: State, step: Step)
    requires Inv(s) && Enabled(s, step) && Fresh(s, step)
    ensures !Panics(s, step) && Inv(Apply(s, step))
  {
    match step
    case Create(_, _, _) => CreateKeeps(s, step);
    case Acquire(pool, _) =>
      assert PoolOk(s, pool);
      AcquireKeeps(s, step);
    case Drop(i) =>
      DropIsSafe(s, i);
      DropKeeps(s, step);
    case Replace(candidate, current) =>
      var desired := s.ledgers[candidate.ledger];
      forall n | n in desired ensures desired[n].active == 0 {
        assert Counts(s, candidate.ledger) && EntryOk(s, candidate.ledger, n);
        HeldNone(s.live, candidate.ledger, n);
      }
      ReplaceKeepsIff(s, step);
  }

  /** The live permits of a name in a ledger, as a set. */
  ghost function Holders(live: seq<Permit>, l: nat, name: Name): set<nat> {
    set k: nat | k < |live| && live[k].pool.ledger == l && live[k].index < |live[k].pool.targets|
                 && live[k].pool.targets[live[k].index].name == name
  }

  lemma {:induction false} HeldIsHolders(live: seq<Permit>, l: nat, name: Name)
    ensures Held(live, l, name) == |Holders(live, l, name)|
    decreases |live|
  {
    if live != [] {
      var n := |live| - 1;
      var init, last := live[..n], live[n];
      assert live == init + [last];
      HeldIsHolders(init, l, name);
      HeldAppend(init, last, l, name);
      HoldersAppend(init, last, l, name);
    }
  }

  lemma HoldersAppend(live: seq<Permit>, p: Permit, l: nat, name: Name)
    ensures |Holders(live + [p], l, name)| == |Holders(live, l, name)| + if HasName(p, l, name) then 1 else 0
  {
    var before, n := Holders(live, l, name), |live|;
    assert n !in before;
    if HasName(p, l, name) {
      assert Holders(live + [p], l, name) == before + {n};
    } else {
      assert Holders(live + [p], l, name) == before;
    }
  }

  /** In every run no lookup misses and no counter underflows, every pool's targets are in
      its ledger, and each count is the live permits of all generations, within the maximum. */
  lemma {:induction false} RunConserves(states: seq<State>, steps: seq<Step>, i: nat)
    requires Run(states, steps) && i < |states|
    ensures Inv(states[i]) && (i < |steps| ==> !Panics(states[i], steps[i]))
    decreases i
  {
    if i > 0 {
      RunConserves(states, steps, i - 1);
      assert Next(states, steps, i - 1);
      StepKeeps(states[i - 1], steps[i - 1]);
    }
    if i < |steps| {
      assert Next(states, steps, i);
      StepKeeps(states[i], steps[i]);
    }
  }

  /** The same in plain terms: in every run each entry's count is the number of live permits
      for that name in that ledger, whichever pool gave them, and within its maximum; every
      live permit names a target of its pool and every pool's targets have an entry. */
  lemma RunCounts(states: seq<State>, steps: seq<Step>, i: nat)
    requires Run(states, steps) && i < |states|
    ensures var s := states[i];
            && (forall l: nat, name :: l < |s.ledgers| && name in s.ledgers[l] ==>
                  s.ledgers[l][name].active == |Holders(s.live, l, name)| <= s.ledgers[l][name].maximum)
            && (forall k :: 0 <= k < |s.live| ==> s.live[k].index < |s.live[k].pool.targets|)
            && (forall p, j :: p in s.pools && 0 <= j < |p.targets| ==>
                  p.ledger < |s.ledgers| && p.targets[j].name in s.ledgers[p.ledger])
  {
    RunConserves(states, steps, i);
    var s := states[i];
    forall l: nat, name | l < |s.ledgers| && name in s.ledgers[l]
      ensures s.ledgers[l][name].active == |Holders(s.live, l, name)| <= s.ledgers[l][name].maximum
    {
      assert Counts(s, l) && EntryOk(s, l, name);
      HeldIsHolders(s.live, l, name);
    }
    forall k | 0 <= k < |s.live| ensures s.live[k].index < |s.live[k].pool.targets| {
      assert PermitOk(s, s.live[k]);
    }
    forall p, j | p in s.pools && 0 <= j < |p.targets| ensures p.ledger < |s.ledgers| && p.targets[j].name in s.ledgers[p.ledger] {
      assert PoolOk(s, p) && p.targets[j] in p.targets;
    }
  }

  lemma EntryStays(s: State, step: Step, l: nat, name: Name)
    requires Enabled(s, step) && !Panics(s, step) && l < |s.ledgers| && name in s.ledgers[l]
    ensures var t := Apply(s, step);
            l < |t.ledgers| && name in t.ledgers[l] && t.ledgers[l][name].maximum == s.ledgers[l][name].maximum
  {
  }

  /** Once a name is in a ledger, reloads that drop it and bring it back neither forget its
      permits nor change its maximum: along a run the entry changes by acquires and drops
      only, and its count is always the permits still held. */
  lemma {:induction false} EntrySurvives(states: seq<State>, steps: seq<Step>, l: nat, name: Name, i: nat, j: nat)
    requires Run(states, steps) && i <= j < |states|
    requires l < |states[i].ledgers| && name in states[i].ledgers[l]
    ensures l < |states[j].ledgers| && name in states[j].ledgers[l]
    ensures states[j].ledgers[l][name] == Permits(states[i].ledgers[l][name].maximum, Held(states[j].live, l, name))
    decreases j - i
  {
    RunConserves(states, steps, j);
    if i < j {
      EntrySurvives(states, steps, l, name, i, j - 1);
      assert Next(states, steps, j - 1);
      RunConserves(states, steps, j - 1);
      EntryStays(states[j - 1], steps[j - 1], l, name);
    }
    assert Counts(states[j], l) && EntryOk(states[j], l, name);
  }

  // ----- a busy candidate -----

  function Only(name: Name): Target {
    Target(name, "x", {}, {}, 1)
  }

  function OnePool(name: Name, ledger: nat): Generation {
    Generation([Only(name)], ledger)
  }

  function OneEntry(name: Name, active: nat): Ledger {
    map[name := Permits(1, active)]
  }

  /** Two pools are made, and the second hands out a permit. */
  function BusyStates(): seq<State> {
    [State([], {}, []),
     State([OneEntry("a", 0)], {OnePool("a", 0)}, []),
     State([OneEntry("a", 0), OneEntry("b", 0)], {OnePool("a", 0), OnePool("b", 1)}, []),
     State([OneEntry("a", 0), OneEntry("b", 1)], {OnePool("a", 0), OnePool("b", 1)}, [Permit(OnePool("b", 1), 0)])]
  }

  function BusySteps(): seq<Step> {
    [Create([Only("a")], [1], OneEntry("a", 0)), Create([Only("b")], [1], OneEntry("b", 0)), Acquire(OnePool("b", 1), 0)]
  }

  ghost predicate Moves(s: State, step: Step, t: State) {
    Enabled(s, step) && Fresh(s, step) && !Panics(s, step) && t == Apply(s, step)
  }

  lemma OneIsCreated(s: State, name: Name, t: State)
    requires t.ledgers == s.ledgers + [OneEntry(name, 0)] && t.live == s.live
    requires t.pools == s.pools + {OnePool(name, |s.ledgers|)}
    ensures Moves(s, Create([Only(name)], [1], OneEntry(name, 0)), t)
  {
    assert [Only(name)][0].name == name;
  }

  lemma OneIsAcquired(s: State, name: Name, l: nat, t: State)
    requires l < |s.ledgers| && s.ledgers[l] == OneEntry(name, 0) && OnePool(name, l) in s.pools
    requires t.ledgers == s.ledgers[l := OneEntry(name, 1)] && t.pools == s.pools
    requires t.live == s.live + [Permit(OnePool(name, l), 0)]
    ensures Moves(s, Acquire(OnePool(name, l), 0), t)
  {
    assert Take(OneEntry(name, 0), name) == OneEntry(name, 1);
  }

  lemma BusyMoves(i: nat)
    requires i < 3
    ensures Moves(BusyStates()[i], BusySteps()[i], BusyStates()[i + 1])
  {
    var states := BusyStates();
    if i == 0 {
      OneIsCreated(states[0], "a", states[1]);
    } else if i == 1 {
      OneIsCreated(states[1], "b", states[2]);
    } else {
      OneIsAcquired(states[2], "b", 1, states[3]);
    }
  }

  lemma BusyRun()
    ensures Run(BusyStates(), BusySteps())
  {
    forall i: nat | i < 3 ensures Next(BusyStates(), BusySteps(), i) {
      BusyMoves(i);
    }
  }

  /** A candidate that already handed out a permit breaks the count: its entry arrives with
      that permit, which counts in the candidate's own ledger.  A run reaches such a reload. */
  lemma BusyCandidateBreaksCount()
    ensures var s, step := BusyStates()[3], Replace(OnePool("b", 1), OnePool("a", 0));
            Run(BusyStates(), BusySteps()) && Enabled(s, step) && !Inv(Apply(s, step))
  {
    BusyRun();
    RunConserves(BusyStates(), BusySteps(), 3);
    var s, step := BusyStates()[3], Replace(OnePool("b", 1), OnePool("a", 0));
    assert s.ledgers[1]["b"].active == 1 && "b" !in s.ledgers[0];
    ReplaceKeepsIff(s, step);
  }


  // ----- what a run has acquired and dropped -----

  /** The acquires of a name in a ledger among the first `k` steps. */
  ghost function AcquiredBy(steps: seq<Step>, l: nat, name: Name, k: nat): nat
    requires k <= |steps|
  {
    if k == 0 then 0
    else
      var step := steps[k - 1];
      AcquiredBy(steps, l, name, k - 1) + if step.Acquire? && HasName(Permit(step.pool, step.index), l, name) then 1 else 0
  }

  /** The permits for it that were dropped. */
  ghost function DroppedBy(states: seq<State>, steps: seq<Step>, l: nat, name: Name, k: nat): nat
    requires k < |states| && k <= |steps|
  {
    if k == 0 then 0
    else
      var s, step := states[k - 1], steps[k - 1];
      DroppedBy(states, steps, l, name, k - 1) +
      if step.Drop? && step.permit < |s.live| && HasName(s.live[step.permit], l, name) then 1 else 0
  }

  lemma {:induction false} HeldBalances(states: seq<State>, steps: seq<Step>, l: nat, name: Name, i: nat)
    requires Run(states, steps) && i < |states|
    ensures Held(states[i].live, l, name) == AcquiredBy(steps, l, name, i) - DroppedBy(states, steps, l, name, i)
    decreases i
  {
    if i > 0 {
      HeldBalances(states, steps, l, name, i - 1);
      RunConserves(states, steps, i - 1);
      assert Next(states, steps, i - 1);
      var s, step := states[i - 1], steps[i - 1];
      if step.Acquire? {
        HeldAppend(s.live, Permit(step.pool, step.index), l, name);
      } else if step.Drop? {
        HeldWithout(s.live, step.permit, l, name);
      }
    }
  }

  /** In every run a count is the acquires of that name less its drops, across all reloads. */
  lemma CountBalances(states: seq<State>, steps: seq<Step>, l: nat, name: Name, i: nat)
    requires Run(states, steps) && i < |states| && l < |states[i].ledgers| && name in states[i].ledgers[l]
    ensures states[i].ledgers[l][name].active == AcquiredBy(steps, l, name, i) - DroppedBy(states, steps, l, name, i)
  {
    HeldBalances(states, steps, l, name, i);
    RunConserves(states, steps, i);
    assert Counts(states[i], l) && EntryOk(states[i], l, name);
  }

  lemma {:induction false} PoolsLast(states: seq<State>, steps: seq<Step>, p: Generation, j: nat, i: nat)
    requires Run(states, steps) && j <= i < |states| && p in states[j].pools
    ensures p in states[i].pools
    decreases i
  {
    if j < i {
      PoolsLast(states, steps, p, j, i - 1);
      RunConserves(states, steps, i - 1);
      assert Next(states, steps, i - 1);
    }
  }

  /** No name of both has another maximum. */
  ghost predicate Accepted(s: State, candidate: Generation, current: Generation) {
    && candidate.ledger < |s.ledgers| && current.ledger < |s.ledgers|
    && Agree(s.ledgers[candidate.ledger], s.ledgers[current.ledger])
  }

  /** The generation a reload brings is over the ledger it replaces, and keeps an entry for
      each of its targets from then on. */
  lemma ReloadLasts(states: seq<State>, steps: seq<Step>, j: nat, i: nat)
    requires Run(states, steps) && j < i < |states| && steps[j].Replace?
    requires Accepted(states[j], steps[j].candidate, steps[j].current)
    ensures var p := Generation(steps[j].candidate.targets, steps[j].current.ledger);
            p in states[i].pools && p.ledger < |states[i].ledgers| &&
            forall k :: 0 <= k < |p.targets| ==> p.targets[k].name in states[i].ledgers[p.ledger]
  {
    assert Next(states, steps, j);
    RunConserves(states, steps, j);
    var p := Generation(steps[j].candidate.targets, steps[j].current.ledger);
    PoolsLast(states, steps, p, j + 1, i);
    RunConserves(states, steps, i);
    assert PoolOk(states[i], p);
  }
}
