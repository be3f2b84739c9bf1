/** The session allocation budget: an atomic byte counter, charged by a compare-exchange
    loop that may fail spuriously and released by dropping charges. */
module Budget {
  import opened Basics

  const WORD := 0x1_0000_0000_0000_0000

  // ----- one caller at a time -----

  /** The budget as a decoder sees it.  `retained` never exceeds `maximum`. */
  class SessionBudget {
    const maximum: nat
    var retained: nat

    ghost predicate Valid()
      reads this
    {
      retained <= maximum
    }

    constructor (maximum: nat)
      ensures Valid() && retained == 0 && this.maximum == maximum
    {
      this.maximum, retained := maximum, 0;
    }

    method Charge(bytes: nat) returns (ok: bool)
      requires Valid()
      modifies this
      ensures Valid()
      ensures ok <==> old(retained) + bytes <= maximum
      ensures retained == old(retained) + if ok then bytes else 0
    {
      ok := retained + bytes <= maximum;
      if ok {
        retained := retained + bytes;
      }
    }

    /** Dropping charges of `bytes` in all. */
    method Release(bytes: nat)
      requires Valid() && bytes <= retained
      modifies this
      ensures Valid() && retained == old(retained) - bytes
    {
      retained := retained - bytes;
    }
  }

  // ----- any number of callers, interleaved -----

  type Thread = nat

  /** A thread outside `charge`, or in its loop with the counter value it last saw. */
  datatype Call = Idle | Charging(bytes: nat, seen: nat)

  datatype State = State(retained: nat, calls: map<Thread, Call>, live: seq<nat>)

  datatype Step =
    | Load(t: Thread, bytes: nat)  // enter `charge` and load the counter
    | Exchange(t: Thread)          // the compare-exchange succeeds and the charge is live
    | Retry(t: Thread)             // it fails, spuriously or not, and reloads the counter
    | Refuse(t: Thread)            // the value seen leaves no room: return an error
    | Drop(index: nat)             // a live charge is dropped

  function CallOf(s: State, t: Thread): Call {
    if t in s.calls then s.calls[t] else Idle
  }

  function Fits(call: Call, maximum: nat): bool {
    call.Charging? && call.seen + call.bytes < WORD && call.seen + call.bytes <= maximum
  }

  /** `fetch_sub` wraps. */
  function WrappingSub(a: nat, b: nat): nat {
    (a - b) % WORD
  }

  ghost predicate Enabled(s: State, step: Step, maximum: nat) {
    match step
    case Load(t, _) => CallOf(s, t).Idle?
    case Exchange(t) => Fits(CallOf(s, t), maximum) && s.retained == CallOf(s, t).seen
    case Retry(t) => Fits(CallOf(s, t), maximum)
    case Refuse(t) => CallOf(s, t).Charging? && !Fits(CallOf(s, t), maximum)
    case Drop(i) => i < |s.live|
  }

  ghost function Apply(s: State, step: Step, maximum: nat): State
    requires Enabled(s, step, maximum)
  {
    match step
    case Load(t, bytes) => s.(calls := s.calls[t := Charging(bytes, s.retained)])
    case Exchange(t) =>
      var call := CallOf(s, t);
      State(call.seen + call.bytes, s.calls[t := Idle], s.live + [call.bytes])
    case Retry(t) => s.(calls := s.calls[t := CallOf(s, t).(seen := s.retained)])
    case Refuse(t) => s.(calls := s.calls[t := Idle])
    case Drop(i) => s.(retained := WrappingSub(s.retained, s.live[i]), live := Without(s.live, i))
  }

  function Sum(s: seq<nat>): nat {
    if s == [] then 0 else s[0] + Sum(s[1..])
  }

  lemma {:induction false} SumConcat(a: seq<nat>, b: seq<nat>)
    ensures Sum(a + b) == Sum(a) + Sum(b)
    decreases |a|
  {
    if a == [] {
      assert a + b == b;
    } else {
      assert (a + b)[1..] == a[1..] + b;
      SumConcat(a[1..], b);
    }
  }

  lemma SumFirst(x: nat, b: seq<nat>)
    ensures Sum([x] + b) == x + Sum(b)
  {
    assert ([x] + b)[1..] == b;
  }

  lemma SumMiddle(a: seq<nat>, x: nat, b: seq<nat>)
    ensures Sum(a + ([x] + b)) == Sum(a + b) + x
  {
    SumConcat(a, [x] + b);
    SumConcat(a, b);
    SumFirst(x, b);
  }

  lemma SumWithout(s: seq<nat>, i: nat)
    requires i < |s|
    ensures Sum(s) == Sum(Without(s, i)) + s[i]
  {
    SplitsAt(s, i);
    SumMiddle(s[..i], s[i], s[i + 1..]);
  }

  ghost predicate Inv(s: State, maximum: nat) {
    s.retained == Sum(s.live) && s.retained <= maximum
  }

  lemma StepKeeps(s: State, step: Step, maximum: nat)
    requires maximum < WORD && Inv(s, maximum) && Enabled(s, step, maximum)
    ensures Inv(Apply(s, step, maximum), maximum)
    ensures step.Drop? ==> s.live[step.index] <= s.retained
  {
    match step
    case Exchange(t) =>
      SumConcat(s.live, [CallOf(s, t).bytes]);
      assert Sum([CallOf(s, t).bytes]) == CallOf(s, t).bytes;
    case Drop(i) => SumWithout(s.live, i);
    case _ =>
  }

  // ----- runs -----

  /** A run from an empty budget: one state more than steps. */
  ghost predicate Run(states: seq<State>, steps: seq<Step>, maximum: nat) {
    && |states| == |steps| + 1
    && states[0] == State(0, map[], [])
    && forall i: nat :: i < |steps| ==> Next(states, steps, maximum, i)
  }

  ghost predicate Next(states: seq<State>, steps: seq<Step>, maximum: nat, i: nat) {
    i + 1 < |states| && i < |steps| && Enabled(states[i], steps[i], maximum) && states[i + 1] == Apply(states[i], steps[i], maximum)
  }

  /** In every interleaving the counter is the sum of the live charges, stays within the
      maximum, and no drop wraps around. */
  lemma {:induction false} RunConserves(states: seq<State>, steps: seq<Step>, maximum: nat, i: nat)
    requires maximum < WORD && Run(states, steps, maximum) && i < |states|
    ensures states[i].retained == Sum(states[i].live) && states[i].retained <= maximum
    ensures i < |steps| && steps[i].Drop? ==> steps[i].index < |states[i].live| && states[i].live[steps[i].index] <= states[i].retained
    decreases i
  {
    if i > 0 {
      RunConserves(states, steps, maximum, i - 1);
      assert Next(states, steps, maximum, i - 1);
      StepKeeps(states[i - 1], steps[i - 1], maximum);
    }
    if i < |steps| {
      assert Next(states, steps, maximum, i);
      StepKeeps(states[i], steps[i], maximum);
    }
  }

  ghost predicate InCall(s: State, t: Thread, bytes: nat) {
    CallOf(s, t).Charging? && CallOf(s, t).bytes == bytes
  }

  /** `j` is an instant at which the counter held what the thread at `i` has seen, and the
      thread was in the same call ever since.  At `j` itself the load is just happening. */
  ghost predicate SeenAt(states: seq<State>, t: Thread, i: nat, j: nat) {
    && j < i < |states|
    && CallOf(states[i], t).Charging?
    && states[j].retained == CallOf(states[i], t).seen
    && forall k :: j < k <= i ==> InCall(states[k], t, CallOf(states[i], t).bytes)
  }

  lemma {:induction false} SeenValueWasThere(states: seq<State>, steps: seq<Step>, maximum: nat, t: Thread, i: nat) returns (j: nat)
    requires Run(states, steps, maximum) && i < |states| && CallOf(states[i], t).Charging?
    ensures SeenAt(states, t, i, j)
    decreases i
  {
    if i == 0 {
      assert false;
    } else {
      var step := steps[i - 1];
      assert Next(states, steps, maximum, i - 1);
      if (step.Load? || step.Retry?) && step.t == t {
        j := i - 1;
      } else {
        assert CallOf(states[i - 1], t) == CallOf(states[i], t);
        j := SeenValueWasThere(states, steps, maximum, t, i - 1);
      }
    }
  }

  /** A refused charge truly did not fit at some instant of the call. */
  lemma RefusedDidNotFit(states: seq<State>, steps: seq<Step>, maximum: nat, i: nat)
    requires maximum < WORD && Run(states, steps, maximum) && i < |steps| && steps[i].Refuse?
    ensures var t := steps[i].t;
            exists j: nat {:trigger SeenAt(states, t, i, j)} :: SeenAt(states, t, i, j)
              && states[j].retained + CallOf(states[i], t).bytes > maximum
  {
    assert Next(states, steps, maximum, i);
    var j := SeenValueWasThere(states, steps, maximum, steps[i].t, i);
    assert SeenAt(states, steps[i].t, i, j);
  }


  /** What calls have charged in the first `k` steps. */
  ghost function ChargedBy(states: seq<State>, steps: seq<Step>, k: nat): nat
    requires k < |states| && k <= |steps|
  {
    if k == 0 then 0
    else
      var s, step := states[k - 1], steps[k - 1];
      ChargedBy(states, steps, k - 1) + if step.Exchange? && CallOf(s, step.t).Charging? then CallOf(s, step.t).bytes else 0
  }

  /** What drops have given back. */
  ghost function DroppedBy(states: seq<State>, steps: seq<Step>, k: nat): nat
    requires k < |states| && k <= |steps|
  {
    if k == 0 then 0
    else
      var s, step := states[k - 1], steps[k - 1];
      DroppedBy(states, steps, k - 1) + if step.Drop? && step.index < |s.live| then s.live[step.index] else 0
  }

  /** In every interleaving the counter is all that was charged less all that was dropped. */
  lemma {:induction false} RunBalances(states: seq<State>, steps: seq<Step>, maximum: nat, i: nat)
    requires maximum < WORD && Run(states, steps, maximum) && i < |states|
    ensures states[i].retained == ChargedBy(states, steps, i) - DroppedBy(states, steps, i)
    decreases i
  {
    if i > 0 {
      RunBalances(states, steps, maximum, i - 1);
      RunConserves(states, steps, maximum, i - 1);
      assert Next(states, steps, maximum, i - 1);
    }
  }
}
