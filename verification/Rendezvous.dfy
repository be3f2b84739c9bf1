/** The MicroVM rendezvous: executions register an intent and wait, connections are admitted
    concurrently and handed to the registration of their intent, and dropping a session
    withdraws it. */
module Rendezvous {
  import opened Basics

  type Intent = string
  type Time = int
  type SessionId = nat
  type Thread = nat

  /** A waiting registration; `sender` is its channel until a connection takes it. */
  datatype Entry = Entry(deadline: Time, sender: Option<SessionId>)

  type Waiting = map<Intent, Entry>

  predicate CanRegister(waiting: Waiting, maximum: nat, intent: Intent, deadline: Time, now: Time) {
    0 < |intent| <= 128 && now < deadline && |waiting| < maximum && intent !in waiting
  }

  predicate CanDeliver(waiting: Waiting, intent: Intent, now: Time) {
    intent in waiting && now < waiting[intent].deadline && waiting[intent].sender.Some?
  }

  // ----- the locked regions -----

  class ExecutionSessions {
    const maximum: nat
    var waiting: Waiting

    constructor (maximum: nat)
      requires maximum > 0
      ensures this.maximum == maximum && waiting == map[]
    {
      this.maximum, waiting := maximum, map[];
    }

    method Register(intent: Intent, deadline: Time, now: Time, channel: SessionId) returns (ok: bool)
      modifies this
      ensures ok <==> CanRegister(old(waiting), maximum, intent, deadline, now)
      ensures waiting == if ok then old(waiting)[intent := Entry(deadline, Some(channel))] else old(waiting)
    {
      if |intent| == 0 || |intent| > 128 || deadline <= now || |waiting| >= maximum || intent in waiting {
        return false;
      }
      waiting := waiting[intent := Entry(deadline, Some(channel))];
      return true;
    }

    /** The look-up an admission makes before it binds the connection. */
    method Lookup(intent: Intent) returns (r: Option<Time>)
      ensures r == if intent in waiting && waiting[intent].sender.Some? then Some(waiting[intent].deadline) else None
    {
      if intent !in waiting || waiting[intent].sender.None? {
        return None;
      }
      return Some(waiting[intent].deadline);
    }

    /** The end of `accept`: the sender is taken, so nobody can take it again. */
    method TakeSender(intent: Intent, now: Time) returns (r: Option<SessionId>)
      modifies this
      ensures r.Some? <==> CanDeliver(old(waiting), intent, now)
      ensures r.Some? ==> r == old(waiting)[intent].sender
      ensures r.Some? ==> waiting == old(waiting)[intent := Entry(old(waiting)[intent].deadline, None)]
      ensures r.None? ==> waiting == old(waiting)
    {
      if intent !in waiting || now >= waiting[intent].deadline {
        return None;
      }
      r := waiting[intent].sender;
      waiting := waiting[intent := waiting[intent].(sender := None)];
    }

    method Withdraw(intent: Intent)
      modifies this
      ensures waiting == old(waiting) - {intent}
    {
      waiting := waiting - {intent};
    }
  }

  // ----- every interleaving -----

  /** A connection ready for its registration.  `seen` is the registration its last look-up
      found, whose deadline its socket carries. */
  datatype Connection = Connection(intent: Intent, socketDeadline: Time, seen: SessionId)

  datatype Delivery = Delivery(connection: Connection, at: Time)

  /** An `ExecutionSession`: `guarded` until its drop has run, `open` until its receiver is
      dropped after that.  `sent` is all its channel ever got, `inbox` what it still holds, and
      `received` what the execution got out of it. */
  datatype Session = Session(intent: Intent, deadline: Time, guarded: bool, open: bool, sent: seq<Delivery>, inbox: seq<Connection>,
                             received: seq<Connection>)

  datatype Phase = Idle | Bound(connection: Connection)

  datatype State = State(now: Time, waiting: Waiting, sessions: seq<Session>, threads: map<Thread, Phase>)

  datatype Step =
    | Tick(to: Time)
    | Register(intent: Intent, deadline: Time)
    | Bind(t: Thread, intent: Intent)   // look-up, then admission of the connection
    | GiveUp(t: Thread)                 // an admission that failed
    | Deliver(t: Thread)                // take the sender and send, under one lock
    | Receive(id: SessionId)
    | Withdraw(id: SessionId)           // the guard's drop
    | Close(id: SessionId)              // its receiver goes

  function PhaseOf(s: State, t: Thread): Phase {
    if t in s.threads then s.threads[t] else Idle
  }

  ghost predicate Enabled(s: State, step: Step, maximum: nat) {
    match step
    case Tick(to) => s.now <= to
    case Register(intent, deadline) => CanRegister(s.waiting, maximum, intent, deadline, s.now)
    case Bind(t, intent) =>
      PhaseOf(s, t).Idle? && intent in s.waiting && s.waiting[intent].sender.Some? && s.now < s.waiting[intent].deadline
    case GiveUp(t) => PhaseOf(s, t).Bound?
    case Deliver(t) => PhaseOf(s, t).Bound? && CanDeliver(s.waiting, PhaseOf(s, t).connection.intent, s.now)
    case Receive(id) => id < |s.sessions| && s.sessions[id].guarded && s.sessions[id].inbox != []
    case Withdraw(id) => id < |s.sessions| && s.sessions[id].guarded
    case Close(id) => id < |s.sessions| && !s.sessions[id].guarded && s.sessions[id].open
  }

  /** `try_send` into a channel of one slot: its receiver must live and the slot be free. */
  ghost predicate SendFails(s: State, step: Step) {
    match step
    case Deliver(t) =>
      var c := PhaseOf(s, t);
      c.Bound? && c.connection.intent in s.waiting && s.waiting[c.connection.intent].sender.Some? &&
      var id := s.waiting[c.connection.intent].sender.value;
      !(id < |s.sessions| && s.sessions[id].open && s.sessions[id].inbox == [])
    case _ => false
  }

  ghost function Apply(s: State, step: Step, maximum: nat): State
    requires Enabled(s, step, maximum) && !SendFails(s, step)
  {
    match step
    case Tick(to) => s.(now := to)
    case Register(intent, deadline) =>
      s.(waiting := s.waiting[intent := Entry(deadline, Some(|s.sessions|))],
         sessions := s.sessions + [Session(intent, deadline, true, true, [], [], [])])
    case Bind(t, intent) =>
      var e := s.waiting[intent];
      s.(threads := s.threads[t := Bound(Connection(intent, e.deadline, e.sender.value))])
    case GiveUp(t) => s.(threads := s.threads[t := Idle])
    case Deliver(t) =>
      var c := PhaseOf(s, t).connection;
      var id := s.waiting[c.intent].sender.value;
      var to := s.sessions[id];
      s.(waiting := s.waiting[c.intent := Entry(s.waiting[c.intent].deadline, None)],
         sessions := s.sessions[id := to.(sent := to.sent + [Delivery(c, s.now)], inbox := to.inbox + [c])],
         threads := s.threads[t := Idle])
    case Receive(id) =>
      var to := s.sessions[id];
      s.(sessions := s.sessions[id := to.(inbox := to.inbox[1..], received := to.received + [to.inbox[0]])])
    case Withdraw(id) =>
      s.(waiting := s.waiting - {s.sessions[id].intent}, sessions := s.sessions[id := s.sessions[id].(guarded := false)])
    case Close(id) => s.(sessions := s.sessions[id := s.sessions[id].(open := false)])
  }

  // ----- the invariant -----

  /** A guard's key is waiting with its deadline, and its channel can be taken until used. */
  ghost predicate GuardOk(s: State, id: SessionId)
    requires id < |s.sessions|
  {
    var g := s.sessions[id];
    g.guarded ==>
      g.open && g.intent in s.waiting && s.waiting[g.intent] == Entry(g.deadline, if g.sent == [] then Some(id) else None)
  }

  /** A channel got at most one connection, of its own intent, before its deadline, and holds it
      until it is received. */
  ghost predicate ChannelOk(s: State, id: SessionId)
    requires id < |s.sessions|
  {
    var g := s.sessions[id];
    if g.sent == [] then g.inbox == [] && g.received == []
    else |g.sent| == 1 && DeliveryOk(s, g.sent[0], id) && g.received + g.inbox == [g.sent[0].connection]
  }

  ghost predicate DeliveryOk(s: State, d: Delivery, id: SessionId)
    requires id < |s.sessions|
  {
    && d.connection.intent == s.sessions[id].intent && d.at < s.sessions[id].deadline && d.at <= s.now
    && d.connection.seen <= id && BoundOk(s, d.connection)
    && (d.connection.seen < id ==> !s.sessions[d.connection.seen].guarded)
  }

  ghost predicate BoundOk(s: State, c: Connection) {
    && c.seen < |s.sessions| && s.sessions[c.seen].intent == c.intent && s.sessions[c.seen].deadline == c.socketDeadline
  }

  /** Some guard holds the key. */
  ghost predicate Guarded(s: State, intent: Intent) {
    exists id :: 0 <= id < |s.sessions| && s.sessions[id].guarded && s.sessions[id].intent == intent
  }

  ghost predicate GuardsOk(s: State, maximum: nat) {
    && (forall id :: 0 <= id < |s.sessions| ==> GuardOk(s, id))
    && (forall intent :: intent in s.waiting ==> Guarded(s, intent))
    && LaterReplaces(s)
    && |s.waiting| <= maximum
  }

  ghost predicate ChannelsOk(s: State) {
    && (forall id :: 0 <= id < |s.sessions| ==> ChannelOk(s, id))
    && (forall t :: PhaseOf(s, t).Bound? ==> BoundOk(s, PhaseOf(s, t).connection))
  }

  ghost predicate Inv(s: State, maximum: nat) {
    GuardsOk(s, maximum) && ChannelsOk(s)
  }

  /** An intent is registered again only after its earlier guard is gone. */
  ghost predicate LaterReplaces(s: State) {
    forall j :: 0 <= j < |s.sessions| ==> NoneGuardedBefore(s, j)
  }

  ghost predicate NoneGuardedBefore(s: State, j: SessionId)
    requires j < |s.sessions|
  {
    forall i :: 0 <= i < j && s.sessions[i].guarded ==> s.sessions[i].intent != s.sessions[j].intent
  }

  /** Sessions keep intent and deadline, and a dropped guard stays dropped. */
  ghost predicate Grows(s: State, t: State) {
    && |s.sessions| <= |t.sessions| && s.now <= t.now
    && forall id :: 0 <= id < |s.sessions| ==> SameSession(s.sessions[id], t.sessions[id])
  }

  ghost predicate SameSession(a: Session, b: Session) {
    a.intent == b.intent && a.deadline == b.deadline && (b.guarded ==> a.guarded)
  }

  lemma DeliveryStays(s: State, t: State, d: Delivery, id: SessionId)
    requires Grows(s, t) && id < |s.sessions| && DeliveryOk(s, d, id)
    ensures DeliveryOk(t, d, id)
  {
    assert SameSession(s.sessions[id], t.sessions[id]);
    BoundStays(s, t, d.connection);
  }

  lemma BoundStays(s: State, t: State, c: Connection)
    requires Grows(s, t) && BoundOk(s, c)
    ensures BoundOk(t, c) && SameSession(s.sessions[c.seen], t.sessions[c.seen])
  {
    assert SameSession(s.sessions[c.seen], t.sessions[c.seen]);
  }

  /** A channel that got nothing new is as sound as before. */
  lemma ChannelStays(s: State, t: State, id: SessionId)
    requires Grows(s, t) && id < |s.sessions| && ChannelOk(s, id)
    requires t.sessions[id].sent == s.sessions[id].sent
    requires t.sessions[id].received + t.sessions[id].inbox == s.sessions[id].received + s.sessions[id].inbox
    ensures ChannelOk(t, id)
  {
    if s.sessions[id].sent != [] {
      DeliveryStays(s, t, s.sessions[id].sent[0], id);
    }
  }

  lemma BoundsStay(s: State, t: State)
    requires Grows(s, t)
    requires forall x :: PhaseOf(s, x).Bound? ==> BoundOk(s, PhaseOf(s, x).connection)
    requires forall x :: PhaseOf(t, x).Bound? ==> PhaseOf(t, x) == PhaseOf(s, x) || BoundOk(s, PhaseOf(t, x).connection)
    ensures forall x :: PhaseOf(t, x).Bound? ==> BoundOk(t, PhaseOf(t, x).connection)
  {
    forall x | PhaseOf(t, x).Bound? ensures BoundOk(t, PhaseOf(t, x).connection) {
      BoundStays(s, t, PhaseOf(t, x).connection);
    }
  }

  lemma RegisterKeepsChannels(s: State, step: Step, maximum: nat)
    requires ChannelsOk(s) && step.Register? && Enabled(s, step, maximum)
    ensures ChannelsOk(Apply(s, step, maximum))
  {
    var t := Apply(s, step, maximum);
    forall id | 0 <= id < |t.sessions| ensures ChannelOk(t, id) {
      if id < |s.sessions| { ChannelStays(s, t, id); }
    }
    BoundsStay(s, t);
  }

  lemma RegisterKeepsGuards(s: State, step: Step, maximum: nat)
    requires GuardsOk(s, maximum) && step.Register? && Enabled(s, step, maximum)
    ensures GuardsOk(Apply(s, step, maximum), maximum)
  {
    var t := Apply(s, step, maximum);
    var n := |s.sessions|;
    forall id | 0 <= id < |t.sessions| ensures GuardOk(t, id) {
      if id < n { assert GuardOk(s, id); }
    }
    forall intent | intent in t.waiting ensures Guarded(t, intent) {
      if intent == step.intent {
        assert t.sessions[n].intent == intent;
      } else {
        assert Guarded(s, intent);
        var id :| 0 <= id < n && s.sessions[id].guarded && s.sessions[id].intent == intent;
        assert t.sessions[id].intent == intent;
      }
    }
    forall j | 0 <= j < |t.sessions| ensures NoneGuardedBefore(t, j) {
      if j < n {
        assert NoneGuardedBefore(s, j);
      } else {
        forall i | 0 <= i < n && t.sessions[i].guarded ensures t.sessions[i].intent != t.sessions[n].intent {
          assert GuardOk(s, i);
        }
      }
    }
    OneMoreKey(s.waiting, step.intent, t.waiting[step.intent]);
  }

  lemma OneMoreKey(a: Waiting, intent: Intent, e: Entry)
    requires intent !in a
    ensures |a[intent := e]| == |a| + 1
  {
    assert a[intent := e].Keys == a.Keys + {intent};
    assert |a[intent := e]| == |a[intent := e].Keys| && |a| == |a.Keys|;
  }

  /** The channel a delivery takes belongs to the one guard of that intent. */
  lemma DeliveryTarget(s: State, t: Thread, maximum: nat)
    requires Inv(s, maximum) && Enabled(s, Deliver(t), maximum)
    ensures var c := PhaseOf(s, t).connection; var id := s.waiting[c.intent].sender.value;
            && id < |s.sessions| && s.sessions[id].guarded && s.sessions[id].intent == c.intent
            && s.sessions[id].sent == [] && s.sessions[id].inbox == [] && s.sessions[id].received == [] && s.sessions[id].open
            && s.waiting[c.intent].deadline == s.sessions[id].deadline
            && DeliveryOk(s, Delivery(c, s.now), id)
    ensures !SendFails(s, Deliver(t))
  {
    var c := PhaseOf(s, t).connection;
    assert Guarded(s, c.intent);
    var g :| 0 <= g < |s.sessions| && s.sessions[g].guarded && s.sessions[g].intent == c.intent;
    assert GuardOk(s, g) && ChannelOk(s, g);
    assert BoundOk(s, c);
    assert NoneGuardedBefore(s, g) && NoneGuardedBefore(s, c.seen);
  }

  lemma DeliverKeepsChannels(s: State, step: Step, maximum: nat)
    requires Inv(s, maximum) && step.Deliver? && Enabled(s, step, maximum) && !SendFails(s, step)
    ensures ChannelsOk(Apply(s, step, maximum))
  {
    DeliveryTarget(s, step.t, maximum);
    var t := Apply(s, step, maximum);
    var c := PhaseOf(s, step.t).connection;
    forall id | 0 <= id < |t.sessions| ensures ChannelOk(t, id) {
      if id == s.waiting[c.intent].sender.value {
        DeliveryStays(s, t, Delivery(c, s.now), id);
        assert t.sessions[id].received + t.sessions[id].inbox == [c];
      } else {
        ChannelStays(s, t, id);
      }
    }
    BoundsStay(s, t);
  }

  lemma DeliverKeepsGuards(s: State, step: Step, maximum: nat)
    requires Inv(s, maximum) && step.Deliver? && Enabled(s, step, maximum) && !SendFails(s, step)
    ensures GuardsOk(Apply(s, step, maximum), maximum)
  {
    DeliveryTarget(s, step.t, maximum);
    var t := Apply(s, step, maximum);
    forall id | 0 <= id < |t.sessions| ensures GuardOk(t, id) {
      assert GuardOk(s, id);
    }
    GuardsStay(s, t);
    FewerKeys(s.waiting, t.waiting);
  }

  /** Guards and intents are where they were. */
  ghost predicate SameGuards(s: State, t: State) {
    |t.sessions| == |s.sessions| &&
    forall id :: 0 <= id < |s.sessions| ==>
      t.sessions[id].guarded == s.sessions[id].guarded && t.sessions[id].intent == s.sessions[id].intent
  }

  lemma GuardsStay(s: State, t: State)
    requires SameGuards(s, t) && t.waiting.Keys <= s.waiting.Keys
    requires LaterReplaces(s) && forall intent :: intent in s.waiting ==> Guarded(s, intent)
    ensures LaterReplaces(t) && forall intent :: intent in t.waiting ==> Guarded(t, intent)
  {
    forall j | 0 <= j < |t.sessions| ensures NoneGuardedBefore(t, j) {
      assert NoneGuardedBefore(s, j);
    }
    forall intent | intent in t.waiting ensures Guarded(t, intent) {
      assert Guarded(s, intent);
      var id :| 0 <= id < |s.sessions| && s.sessions[id].guarded && s.sessions[id].intent == intent;
      assert t.sessions[id].intent == intent;
    }
  }

  lemma WithdrawKeepsChannels(s: State, step: Step, maximum: nat)
    requires ChannelsOk(s) && step.Withdraw? && Enabled(s, step, maximum)
    ensures ChannelsOk(Apply(s, step, maximum))
  {
    var t := Apply(s, step, maximum);
    forall id | 0 <= id < |t.sessions| ensures ChannelOk(t, id) {
      ChannelStays(s, t, id);
    }
    BoundsStay(s, t);
  }

  lemma FewerKeys(a: Waiting, b: Waiting)
    requires b.Keys <= a.Keys
    ensures |b| <= |a|
  {
    assert a.Keys == b.Keys + (a.Keys - b.Keys);
    assert |b| == |b.Keys| && |a| == |a.Keys|;
  }

  lemma GuardsDiffer(s: State, i: SessionId, j: SessionId)
    requires LaterReplaces(s) && i < |s.sessions| && j < |s.sessions| && i != j && s.sessions[i].guarded && s.sessions[j].guarded
    ensures s.sessions[i].intent != s.sessions[j].intent
  {
    assert NoneGuardedBefore(s, i) && NoneGuardedBefore(s, j);
  }

  lemma FewerGuards(s: State, t: State)
    requires LaterReplaces(s) && |t.sessions| == |s.sessions| && Grows(s, t)
    ensures LaterReplaces(t)
  {
    forall j | 0 <= j < |t.sessions| ensures NoneGuardedBefore(t, j) {
      assert NoneGuardedBefore(s, j);
      forall i | 0 <= i < j && t.sessions[i].guarded ensures t.sessions[i].intent != t.sessions[j].intent {
        assert SameSession(s.sessions[i], t.sessions[i]) && SameSession(s.sessions[j], t.sessions[j]);
      }
    }
  }

  lemma WithdrawKeepsGuards(s: State, step: Step, maximum: nat)
    requires GuardsOk(s, maximum) && step.Withdraw? && Enabled(s, step, maximum)
    ensures GuardsOk(Apply(s, step, maximum), maximum)
  {
    var t := Apply(s, step, maximum);
    var gone := s.sessions[step.id].intent;
    FewerGuards(s, t);
    forall id | 0 <= id < |t.sessions| ensures GuardOk(t, id) {
      assert GuardOk(s, id);
      if t.sessions[id].guarded { GuardsDiffer(s, id, step.id); }
    }
    forall intent | intent in t.waiting ensures Guarded(t, intent) {
      StaysGuarded(s, t, step.id, intent);
    }
    FewerKeys(s.waiting, t.waiting);
  }

  lemma StaysGuarded(s: State, t: State, gone: SessionId, intent: Intent)
    requires gone < |s.sessions| && t.sessions == s.sessions[gone := s.sessions[gone].(guarded := false)]
    requires Guarded(s, intent) && intent != s.sessions[gone].intent
    ensures Guarded(t, intent)
  {
    var id :| 0 <= id < |s.sessions| && s.sessions[id].guarded && s.sessions[id].intent == intent;
    assert t.sessions[id].intent == intent && t.sessions[id].guarded;
  }

  /** Steps that leave guards and waiting keys alone. */
  predicate Quiet(step: Step) {
    step.Tick? || step.Bind? || step.GiveUp? || step.Receive? || step.Close?
  }

  lemma QuietKeepsGuards(s: State, step: Step, maximum: nat)
    requires GuardsOk(s, maximum) && Quiet(step) && Enabled(s, step, maximum)
    ensures GuardsOk(Apply(s, step, maximum), maximum)
  {
    var t := Apply(s, step, maximum);
    forall id | 0 <= id < |t.sessions| ensures GuardOk(t, id) {
      assert GuardOk(s, id);
    }
    GuardsStay(s, t);
  }

  lemma QuietKeepsChannels(s: State, step: Step, maximum: nat)
    requires Inv(s, maximum) && Quiet(step) && Enabled(s, step, maximum)
    ensures ChannelsOk(Apply(s, step, maximum))
  {
    var t := Apply(s, step, maximum);
    forall id | 0 <= id < |t.sessions| ensures ChannelOk(t, id) {
      assert ChannelOk(s, id);
      ChannelStays(s, t, id);
    }
    if step.Bind? {
      BindSees(s, step, maximum);
    }
    BoundsStay(s, t);
  }

  lemma BindSees(s: State, step: Step, maximum: nat)
    requires Inv(s, maximum) && step.Bind? && Enabled(s, step, maximum)
    ensures var e := s.waiting[step.intent]; BoundOk(s, Connection(step.intent, e.deadline, e.sender.value))
  {
    assert Guarded(s, step.intent);
    var g :| 0 <= g < |s.sessions| && s.sessions[g].guarded && s.sessions[g].intent == step.intent;
    assert GuardOk(s, g);
  }

  // ----- runs -----

  ghost predicate Next(states: seq<State>, steps: seq<Step>, maximum: nat, i: nat) {
    && i + 1 < |states| && i < |steps| && Enabled(states[i], steps[i], maximum)
    && (!SendFails(states[i], steps[i]) ==> states[i + 1] == Apply(states[i], steps[i], maximum))
  }

  /** A run from an empty rendezvous; after a failed send anything may follow. */
  ghost predicate Run(states: seq<State>, steps: seq<Step>, maximum: nat) {
    && |states| == |steps| + 1
    && states[0].waiting == map[] && states[0].sessions == [] && states[0].threads == map[]
    && forall i: nat :: i < |steps| ==> Next(states, steps, maximum, i)
  }

  lemma StepKeeps(s: State, step: Step, maximum: nat)
    requires Inv(s, maximum) && Enabled(s, step, maximum)
    ensures !SendFails(s, step) && Inv(Apply(s, step, maximum), maximum)
  {
    match step
    case Register(_, _) =>
      RegisterKeepsGuards(s, step, maximum);
      RegisterKeepsChannels(s, step, maximum);
    case Deliver(t) =>
      DeliveryTarget(s, t, maximum);
      DeliverKeepsGuards(s, step, maximum);
      DeliverKeepsChannels(s, step, maximum);
    case Withdraw(_) =>
      WithdrawKeepsGuards(s, step, maximum);
      WithdrawKeepsChannels(s, step, maximum);
    case _ =>
      QuietKeepsGuards(s, step, maximum);
      QuietKeepsChannels(s, step, maximum);
  }

  lemma {:induction false} RunKeeps(states: seq<State>, steps: seq<Step>, maximum: nat, i: nat)
    requires Run(states, steps, maximum) && i < |states|
    ensures Inv(states[i], maximum) && (i < |steps| ==> !SendFails(states[i], steps[i]))
    decreases i
  {
    if i > 0 {
      RunKeeps(states, steps, maximum, i - 1);
      assert Next(states, steps, maximum, i - 1);
      StepKeeps(states[i - 1], steps[i - 1], maximum);
    }
    if i < |steps| {
      assert Next(states, steps, maximum, i);
      StepKeeps(states[i], steps[i], maximum);
    }
  }

  /** The live guards, by intent. */
  ghost function LiveIntents(s: State): set<Intent> {
    set id | 0 <= id < |s.sessions| && s.sessions[id].guarded :: s.sessions[id].intent
  }

  /** In every interleaving the waiting keys are exactly the intents of the live guards, no
      two guards share one, and there are at most `maximum`. */
  lemma WaitingIsGuards(states: seq<State>, steps: seq<Step>, maximum: nat, i: nat)
    requires Run(states, steps, maximum) && i < |states|
    ensures var s := states[i];
            && s.waiting.Keys == LiveIntents(s) && |s.waiting| <= maximum
            && forall a, b :: 0 <= a < b < |s.sessions| && s.sessions[a].guarded && s.sessions[b].guarded
                              ==> s.sessions[a].intent != s.sessions[b].intent
  {
    RunKeeps(states, steps, maximum, i);
    var s := states[i];
    forall a, b | 0 <= a < b < |s.sessions| && s.sessions[a].guarded && s.sessions[b].guarded
      ensures s.sessions[a].intent != s.sessions[b].intent
    {
      assert NoneGuardedBefore(s, b);
    }
    forall intent ensures intent in s.waiting <==> intent in LiveIntents(s) {
      if intent in s.waiting { assert Guarded(s, intent); }
      if intent in LiveIntents(s) {
        var id :| 0 <= id < |s.sessions| && s.sessions[id].guarded && s.sessions[id].intent == intent;
        assert GuardOk(s, id);
      }
    }
  }

  function Sent(g: Session): seq<Connection> {
    seq(|g.sent|, k requires 0 <= k < |g.sent| => g.sent[k].connection)
  }

  /** In every interleaving a registration is sent at most one connection, for its own intent
      and before its deadline, and what was sent is what was received and what its channel
      still holds; a taken sender's channel is open and empty, so the send
      succeeds; and the socket carries this registration's deadline unless the look-up saw an
      earlier registration of the intent that is gone. */
  lemma DeliveredAtMostOnce(states: seq<State>, steps: seq<Step>, maximum: nat, i: nat, id: SessionId)
    requires Run(states, steps, maximum) && i < |states| && id < |states[i].sessions|
    ensures var s := states[i]; var g := s.sessions[id];
            && |g.sent| <= 1 && g.received + g.inbox == Sent(g)
            && (g.sent != [] ==> var d := g.sent[0];
                 && d.connection.intent == g.intent && d.at < g.deadline
                 && (d.connection.seen == id ==> d.connection.socketDeadline == g.deadline)
                 && (d.connection.seen != id ==> d.connection.seen < id && !s.sessions[d.connection.seen].guarded
                                                 && s.sessions[d.connection.seen].intent == g.intent))
    ensures i < |steps| ==> !SendFails(states[i], steps[i])
  {
    RunKeeps(states, steps, maximum, i);
    assert ChannelOk(states[i], id);
    if states[i].sessions[id].sent != [] {
      assert DeliveryOk(states[i], states[i].sessions[id].sent[0], id);
    }
  }

  /** How often the execution of a registration has received in the first `k` steps. */
  ghost function Receipts(steps: seq<Step>, id: SessionId, k: nat): nat
    requires k <= |steps|
  {
    if k == 0 then 0 else Receipts(steps, id, k - 1) + if steps[k - 1] == Receive(id) then 1 else 0
  }

  /** In every interleaving an execution gets something each time it receives. */
  lemma {:induction false} ReceivedEachTime(states: seq<State>, steps: seq<Step>, maximum: nat, i: nat, id: SessionId)
    requires Run(states, steps, maximum) && i < |states|
    ensures if id < |states[i].sessions| then |states[i].sessions[id].received| == Receipts(steps, id, i) else Receipts(steps, id, i) == 0
    decreases i
  {
    if i > 0 {
      ReceivedEachTime(states, steps, maximum, i - 1, id);
      RunKeeps(states, steps, maximum, i - 1);
      assert Next(states, steps, maximum, i - 1);
    }
  }

  // ----- nothing is kept for ever -----

  /** `t` is where the steps lead from `s`. */
  ghost predicate Leads(s: State, steps: seq<Step>, t: State, maximum: nat)
    decreases |steps|
  {
    if steps == [] then s == t
    else Enabled(s, steps[0], maximum) && !SendFails(s, steps[0]) && Leads(Apply(s, steps[0], maximum), steps[1..], t, maximum)
  }

  ghost function GuardedIds(sessions: seq<Session>): set<SessionId> {
    set id: SessionId | id < |sessions| && sessions[id].guarded
  }

  ghost function OpenIds(sessions: seq<Session>): set<SessionId> {
    set id: SessionId | id < |sessions| && sessions[id].open
  }

  ghost function BoundThreads(threads: map<Thread, Phase>): set<Thread> {
    set t | t in threads && threads[t].Bound?
  }

  ghost function ToDo(s: State): nat {
    |GuardedIds(s.sessions)| + |OpenIds(s.sessions)| + |BoundThreads(s.threads)|
  }

  /** Nobody waits, no session or connection is left, and none was registered or delivered. */
  ghost predicate Settles(s: State, t: State) {
    && t.waiting == map[] && t.now == s.now && |t.sessions| == |s.sessions|
    && (forall id :: 0 <= id < |t.sessions| ==>
          !t.sessions[id].guarded && !t.sessions[id].open && t.sessions[id].sent == s.sessions[id].sent)
    && forall x :: PhaseOf(t, x).Idle?
  }

  lemma OneLessGuarded(sessions: seq<Session>, id: SessionId)
    requires id in GuardedIds(sessions)
    ensures var after := sessions[id := sessions[id].(guarded := false)];
            |GuardedIds(after)| < |GuardedIds(sessions)| && OpenIds(after) == OpenIds(sessions)
  {
    var after := sessions[id := sessions[id].(guarded := false)];
    assert GuardedIds(after) == GuardedIds(sessions) - {id};
  }

  lemma OneLessOpen(sessions: seq<Session>, id: SessionId)
    requires id in OpenIds(sessions)
    ensures var after := sessions[id := sessions[id].(open := false)];
            |OpenIds(after)| < |OpenIds(sessions)| && GuardedIds(after) == GuardedIds(sessions)
  {
    var after := sessions[id := sessions[id].(open := false)];
    assert OpenIds(after) == OpenIds(sessions) - {id};
  }

  lemma OneLessBound(threads: map<Thread, Phase>, x: Thread)
    requires x in BoundThreads(threads)
    ensures |BoundThreads(threads[x := Idle])| < |BoundThreads(threads)|
  {
    assert BoundThreads(threads[x := Idle]) == BoundThreads(threads) - {x};
  }

  lemma WaitingHasGuard(s: State, intent: Intent, maximum: nat)
    requires Inv(s, maximum) && intent in s.waiting
    ensures GuardedIds(s.sessions) != {}
  {
    assert Guarded(s, intent);
    var id :| 0 <= id < |s.sessions| && s.sessions[id].guarded && s.sessions[id].intent == intent;
    assert id in GuardedIds(s.sessions);
  }

  lemma NobodyLeft(s: State, maximum: nat)
    requires Inv(s, maximum) && GuardedIds(s.sessions) == {} && OpenIds(s.sessions) == {} && BoundThreads(s.threads) == {}
    ensures Settles(s, s)
  {
    forall intent ensures intent !in s.waiting {
      if intent in s.waiting { WaitingHasGuard(s, intent, maximum); }
    }
    forall id | 0 <= id < |s.sessions| ensures !s.sessions[id].guarded && !s.sessions[id].open {
      assert id !in GuardedIds(s.sessions) && id !in OpenIds(s.sessions);
    }
    forall x ensures PhaseOf(s, x).Idle? {
      assert x !in BoundThreads(s.threads);
    }
  }

  /** The next of them. */
  lemma SomethingToDo(s: State, maximum: nat) returns (step: Step)
    requires GuardedIds(s.sessions) != {} || OpenIds(s.sessions) != {} || BoundThreads(s.threads) != {}
    ensures step.Withdraw? || step.Close? || step.GiveUp?
    ensures Enabled(s, step, maximum) && ToDo(Apply(s, step, maximum)) < ToDo(s)
  {
    if id :| id in GuardedIds(s.sessions) {
      OneLessGuarded(s.sessions, id);
      step := Withdraw(id);
    } else if id :| id in OpenIds(s.sessions) {
      assert id !in GuardedIds(s.sessions);
      OneLessOpen(s.sessions, id);
      step := Close(id);
    } else {
      var x :| x in BoundThreads(s.threads);
      OneLessBound(s.threads, x);
      step := GiveUp(x);
    }
  }

  lemma SettlesBefore(s: State, step: Step, t: State, maximum: nat)
    requires (step.Withdraw? || step.Close? || step.GiveUp?) && Enabled(s, step, maximum) && Settles(Apply(s, step, maximum), t)
    ensures Settles(s, t)
  {
  }

  lemma {:induction false} Drains(s: State, maximum: nat) returns (steps: seq<Step>, t: State)
    requires Inv(s, maximum)
    ensures Leads(s, steps, t, maximum) && Settles(s, t)
    decreases ToDo(s)
  {
    if GuardedIds(s.sessions) == {} && OpenIds(s.sessions) == {} && BoundThreads(s.threads) == {} {
      NobodyLeft(s, maximum);
      steps, t := [], s;
    } else {
      var step := SomethingToDo(s, maximum);
      StepKeeps(s, step, maximum);
      var more;
      more, t := Drains(Apply(s, step, maximum), maximum);
      steps := [step] + more;
      assert steps[1..] == more;
      SettlesBefore(s, step, t, maximum);
    }
  }

  /** From every state of every interleaving, drops and failed admissions alone lead to one where
      nobody waits and no session or connection is left: no entry is stuck. */
  lemma EveryRunDrains(states: seq<State>, steps: seq<Step>, maximum: nat, i: nat)
    requires Run(states, steps, maximum) && i < |states|
    ensures exists more, t :: Leads(states[i], more, t, maximum) && Settles(states[i], t)
  {
    RunKeeps(states, steps, maximum, i);
    var more, t := Drains(states[i], maximum);
  }

  // ----- a stale socket deadline -----

  /** However long the thread waits for the lock: if it then delivers, its socket is in time. */
  ghost predicate DeliversInTime(s: State, t: Thread, maximum: nat)
    requires PhaseOf(s, t).Bound?
  {
    forall later :: s.now <= later && Enabled(s.(now := later), Deliver(t), maximum)
                    ==> later < PhaseOf(s, t).connection.socketDeadline
  }

  /** A thread that can deliver does so in time exactly if the entry's deadline is not behind
      the one its socket carries; `accept` compares only the entry's with the clock. */
  lemma DeliversInTimeIff(s: State, t: Thread, maximum: nat)
    requires PhaseOf(s, t).Bound? && Enabled(s, Deliver(t), maximum)
    ensures var c := PhaseOf(s, t).connection;
            DeliversInTime(s, t, maximum) <==> s.waiting[c.intent].deadline <= c.socketDeadline
  {
    var c := PhaseOf(s, t).connection;
    if c.socketDeadline < s.waiting[c.intent].deadline {
      var later := if s.now <= c.socketDeadline then c.socketDeadline else s.now;
      assert Enabled(s.(now := later), Deliver(t), maximum);
    }
  }

  /** In every interleaving, where no other registration has its intent, a registration is
      sent a connection whose socket carries its own deadline and is in time. */
  lemma SoleRegistrationInTime(states: seq<State>, steps: seq<Step>, maximum: nat, i: nat, id: SessionId)
    requires Run(states, steps, maximum) && i < |states| && id < |states[i].sessions|
    requires var all := states[i].sessions; forall j :: 0 <= j < |all| && j != id ==> all[j].intent != all[id].intent
    ensures var g := states[i].sessions[id];
            g.sent != [] ==> g.sent[0].at < g.sent[0].connection.socketDeadline == g.deadline
  {
    DeliveredAtMostOnce(states, steps, maximum, i, id);
  }

  ghost predicate Moves(s: State, step: Step, t: State, maximum: nat) {
    Enabled(s, step, maximum) && !SendFails(s, step) && t == Apply(s, step, maximum)
  }

  function Guard(intent: Intent, deadline: Time): Session {
    Session(intent, deadline, true, true, [], [], [])
  }

  /** A connection bound to a registration with deadline 5. */
  function Early(intent: Intent): Connection {
    Connection(intent, 5, 0)
  }

  function Gone(intent: Intent): Session {
    Guard(intent, 5).(guarded := false)
  }

  function Served(intent: Intent): Session {
    Guard(intent, 100).(sent := [Delivery(Early(intent), 50)], inbox := [Early(intent)])
  }

  /** Register, bind, withdraw, register again, wait, deliver. */
  function Stale(intent: Intent): seq<State> {
    var bound: map<Thread, Phase> := map[7 := Bound(Early(intent))];
    [State(0, map[], [], map[]),
     State(0, map[intent := Entry(5, Some(0))], [Guard(intent, 5)], map[]),
     State(0, map[intent := Entry(5, Some(0))], [Guard(intent, 5)], bound),
     State(0, map[], [Gone(intent)], bound),
     State(0, map[intent := Entry(100, Some(1))], [Gone(intent), Guard(intent, 100)], bound),
     State(50, map[intent := Entry(100, Some(1))], [Gone(intent), Guard(intent, 100)], bound),
     State(50, map[intent := Entry(100, None)], [Gone(intent), Served(intent)], map[7 := Idle])]
  }

  function StaleSteps(intent: Intent): seq<Step> {
    [Register(intent, 5), Bind(7, intent), Withdraw(0), Register(intent, 100), Tick(50), Deliver(7)]
  }

  lemma StaleRegisters(intent: Intent)
    requires 0 < |intent| <= 128
    ensures Moves(Stale(intent)[0], Register(intent, 5), Stale(intent)[1], 1)
    ensures Moves(Stale(intent)[1], Bind(7, intent), Stale(intent)[2], 1)
  {
  }

  lemma StaleReturns(intent: Intent)
    requires 0 < |intent| <= 128
    ensures Moves(Stale(intent)[2], Withdraw(0), Stale(intent)[3], 1)
    ensures Moves(Stale(intent)[3], Register(intent, 100), Stale(intent)[4], 1)
  {
    assert Stale(intent)[2].waiting - {intent} == map[];
  }

  lemma StaleDelivers(intent: Intent)
    ensures Moves(Stale(intent)[4], Tick(50), Stale(intent)[5], 1)
    ensures Moves(Stale(intent)[5], Deliver(7), Stale(intent)[6], 1)
  {
    var c := Early(intent);
    assert [] + [Delivery(c, 50)] == [Delivery(c, 50)] && [] + [c] == [c];
    assert Stale(intent)[5].sessions[1 := Served(intent)] == Stale(intent)[6].sessions;
  }

  ghost predicate TooLate(g: Session, k: nat) {
    k < |g.sent| && g.sent[k].connection.socketDeadline <= g.sent[k].at < g.deadline
  }

  /** The deadline a delivered socket carries can have passed: the connection was bound to an
      earlier registration of its intent, and the one it reaches has no other sender. */
  lemma SocketDeadlineCanBePast(intent: Intent)
    requires 0 < |intent| <= 128
    ensures Run(Stale(intent), StaleSteps(intent), 1) && TooLate(Stale(intent)[6].sessions[1], 0)
  {
    StaleRegisters(intent);
    StaleReturns(intent);
    StaleDelivers(intent);
    var states, steps := Stale(intent), StaleSteps(intent);
    forall i: nat | i < |steps| ensures Next(states, steps, 1, i) {
      assert Moves(states[i], steps[i], states[i + 1], 1) by {
        assert i == 0 || i == 1 || i == 2 || i == 3 || i == 4 || i == 5;
      }
    }
  }
}
