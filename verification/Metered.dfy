/** Decoders that charge what they keep to a session budget.  A grammar says what is read
    and a cost what it weighs; reading step by step, charging on the way, must come to the
    same as parsing the whole and weighing it. */
module Metered {
  import opened Basics
  import opened Bytes
  import opened Wire
  import opened Codec
  import opened Streams
  import opened Budget

  type Grammar<T> = seq<byte> -> Parsed<T>

  /** A parsed value that fits into the room left. */
  function Weighed<T>(r: Parsed<T>, cost: T -> nat, room: int): Parsed<T> {
    if r.Parsed? && cost(r.value) <= room then r else Failed
  }

  function Free<T>(): T -> nat {
    _ => 0
  }

  function CostBoth<A, B>(c: A -> nat, d: B -> nat): ((A, B)) -> nat {
    (v: (A, B)) => Plus(c(v.0), d(v.1))
  }

  function Plus(a: nat, b: nat): nat {
    a + b
  }

  /** A grammar whose values must pass a check. */
  function Guarded<T>(g: Grammar<T>, ok: T -> bool): Grammar<T> {
    s =>
      match g(s)
      case Failed => Failed
      case Parsed(v, rest) => if ok(v) then Parsed(v, rest) else Failed
  }

  /** What a read did: it took a weighed value off the input and kept its cost. */
  ghost predicate Meters<T(!new)>(g: Grammar<T>, cost: T -> nat, before: View, room: int, r: Result<T>, after: View, grew: int) {
    Conforms(before, Weighed(g(before.logical), cost, room), r, after) && grew == if r.Success? then cost(r.value) else 0
  }

  // ----- a decoder on its way -----

  function Lifted<A, B>(lift: A -> B, r: Parsed<A>): Parsed<B> {
    match r
    case Failed => Failed
    case Parsed(v, rest) => Parsed(lift(v), rest)
  }

  /** Having read from `before` to `now`, with `room0 - room` charged, what is left to read is
      `rest`, and `lift` makes the whole of it. */
  ghost predicate Stage<W(!new), B(!new)>(whole: Grammar<W>, costW: W -> nat, before: View, room0: int,
                                              rest: Grammar<B>, costB: B -> nat, now: View, room: int, lift: B -> W) {
    && now.end == before.end && room <= room0
    && var b := rest(now.logical);
       && Weighed(whole(before.logical), costW, room0) == Lifted(lift, Weighed(b, costB, room))
       && (b.Parsed? ==> costW(lift(b.value)) == room0 - room + costB(b.value))
  }

  ghost function Row<A, B>(p: Grammar<A>, q: Grammar<B>): Grammar<(A, B)> {
    Sealed(Both(p, q))
  }

  ghost function RowCost<A, B>(c: A -> nat, d: B -> nat): ((A, B)) -> nat {
    Sealed(CostBoth(c, d))
  }

  /** A row is weighed part by part: what the first part leaves of the room is for the rest. */
  lemma RowWeighs<A(!new), B(!new)>(p: Grammar<A>, c: A -> nat, q: Grammar<B>, d: B -> nat, s: seq<byte>, room: int)
    ensures var w := Weighed(p(s), c, room);
            Weighed(Row(p, q)(s), RowCost(c, d), room) ==
            if w.Failed? then Failed else Attach(w.value, Weighed(q(w.rest), d, room - c(w.value)))
  {
    Unsealed(Both(p, q));
    Unsealed(CostBoth(c, d));
    BothStep(p, q, s);
  }

  lemma RowCosts<A(!new), B(!new)>(c: A -> nat, d: B -> nat, a: A, b: B)
    ensures RowCost(c, d)((a, b)) == c(a) + d(b)
  {
    Unsealed(CostBoth(c, d));
    assert CostBoth(c, d)((a, b)) == Plus(c(a), d(b));
  }

  /** The same of a read that leaves it to its caller to give back what a failure charged. */
  ghost predicate MetersOpen<T(!new)>(g: Grammar<T>, cost: T -> nat, before: View, room: int, r: Result<T>, after: View, grew: int) {
    grew >= 0 && Meters(g, cost, before, room, r, after, if r.Success? then grew else 0)
  }

  // ----- counted lists -----

  function Cost<T>(cost: T -> nat, values: seq<T>): nat {
    if values == [] then 0 else cost(values[0]) + Cost(cost, values[1..])
  }

  function ItemsCost<T>(cost: T -> nat): seq<T> -> nat {
    values => Cost(cost, values)
  }

  /** A list keeps `size` bytes for each item besides what the item itself keeps. */
  function ListCost<T>(size: nat, cost: T -> nat): seq<T> -> nat {
    values => size * |values| + Cost(cost, values)
  }

  /** `n` more items after those in `before`, each of a grammar that may look back. */
  function ParseMore<T>(item: seq<T> -> Grammar<T>, n: nat, before: seq<T>, s: seq<byte>): (r: Parsed<seq<T>>)
    ensures r.Parsed? ==> |r.value| == n
    decreases n
  {
    if n == 0 then Parsed([], s)
    else
      match item(before)(s)
      case Failed => Failed
      case Parsed(v, rest) =>
        match ParseMore(item, n - 1, before + [v], rest)
        case Failed => Failed
        case Parsed(vs, rest') => Parsed([v] + vs, rest')
  }

  function Items<T>(item: seq<T> -> Grammar<T>, n: nat, before: seq<T>): Grammar<seq<T>> {
    s => ParseMore(item, n, before, s)
  }

  function UpTo(limit: nat): u64 -> bool {
    n => n <= limit
  }

  function Times(size: nat): u64 -> nat {
    n => size * n
  }

  function ListGrammar<T>(item: seq<T> -> Grammar<T>, limit: nat): Grammar<seq<T>> {
    s =>
      match Guarded(ParseInt, UpTo(limit))(s)
      case Failed => Failed
      case Parsed(n, rest) => ParseMore(item, n, [], rest)
  }

  ghost function ListWeight<T>(size: nat, cost: T -> nat): seq<T> -> nat {
    Sealed(ListCost(size, cost))
  }

  ghost function ListOf<T>(item: seq<T> -> Grammar<T>, limit: nat): Grammar<seq<T>> {
    Sealed(ListGrammar(item, limit))
  }

  function Onto<T>(before: seq<T>): seq<T> -> seq<T> {
    rest => before + rest
  }

  /** A list on its way: `n` items to go after `values`. */
  ghost predicate ListStage<T(!new)>(item: seq<T> -> Grammar<T>, limit: nat, size: nat, cost: T -> nat, before: View, room0: int,
                                     n: nat, values: seq<T>, now: View, room: int) {
    Stage(ListOf(item, limit), ListWeight(size, cost), before, room0, Sealed(Items(item, n, values)), Sealed(ItemsCost(cost)),
          now, room, Sealed(Onto(values)))
  }

  lemma ListStart<T(!new)>(item: seq<T> -> Grammar<T>, limit: nat, size: nat, cost: T -> nat, before: View, room: int,
                           count: Result<u64>, after: View, room': int)
    requires Meters(Number(UpTo(limit)), CountWeight(size), before, room, count, after, room - room')
    ensures count.Success? ==> ListStage(item, limit, size, cost, before, room, count.value, [], after, room')
    ensures count.Failure? ==> Meters(ListOf(item, limit), ListWeight(size, cost), before, room, Failure, after, 0)
  {
    Unsealed(Guarded(ParseInt, UpTo(limit)));
    Unsealed(Times(size));
    Unsealed(ListGrammar(item, limit));
    Unsealed(ListCost(size, cost));
    Unsealed(ItemsCost(cost));
    if count.Success? {
      var n := count.value;
      Unsealed(Items(item, n, []));
      Unsealed(Onto<T>([]));
      var more := ParseMore(item, n, [], after.logical);
      assert ListGrammar(item, limit)(before.logical) == more;
      if more.Parsed? {
        assert [] + more.value == more.value;
      }
    } else if ListGrammar(item, limit)(before.logical).Parsed? {
      ListCostAtLeast(size, cost, ListGrammar(item, limit)(before.logical).value);
    }
  }

  lemma ListCostAtLeast<T>(size: nat, cost: T -> nat, values: seq<T>)
    ensures ListCost(size, cost)(values) >= size * |values|
  {
  }

  lemma MoreStep<T>(item: seq<T> -> Grammar<T>, n: nat, values: seq<T>, s: seq<byte>)
    requires n > 0
    ensures ParseMore(item, n, values, s) ==
            if item(values)(s).Failed? then Failed
            else Lifted(Onto([item(values)(s).value]), ParseMore(item, n - 1, values + [item(values)(s).value], item(values)(s).rest))
  {
  }

  lemma CostFirst<T>(cost: T -> nat, v: T, rest: seq<T>)
    ensures Cost(cost, [v] + rest) == cost(v) + Cost(cost, rest)
  {
    assert ([v] + rest)[1..] == rest;
  }

  function Push<T>(values: seq<T>, r: Result<T>): seq<T>
    requires r.Success?
  {
    values + [r.value]
  }

  lemma ListItem<T(!new)>(item: seq<T> -> Grammar<T>, limit: nat, size: nat, cost: T -> nat, before: View, room0: int,
                          n: nat, values: seq<T>, now: View, room: int, r: Result<T>, after: View, room': int)
    requires n > 0 && ListStage(item, limit, size, cost, before, room0, n, values, now, room)
    requires Meters(item(values), cost, now, room, r, after, room - room')
    ensures r.Success? ==> ListStage(item, limit, size, cost, before, room0, n - 1, Push(values, r), after, room')
    ensures r.Failure? ==> Meters(ListOf(item, limit), ListWeight(size, cost), before, room0, Failure, after, 0)
  {
    MoreStep(item, n, values, now.logical);
    Unsealed(Items(item, n, values));
    Unsealed(ItemsCost(cost));
    Unsealed(Onto(values));
    var next := item(values)(now.logical);
    if next.Parsed? {
      var v := next.value;
      var more := ParseMore(item, n - 1, values + [v], next.rest);
      if more.Parsed? {
        CostFirst(cost, v, more.value);
        Assoc(values, [v], more.value);
      }
    }
    if r.Success? {
      Unsealed(Items(item, n - 1, Push(values, r)));
      Unsealed(Onto(Push(values, r)));
    }
  }

  lemma ListDone<T(!new)>(item: seq<T> -> Grammar<T>, limit: nat, size: nat, cost: T -> nat, before: View, room0: int,
                          n: nat, values: seq<T>, now: View, room: int)
    requires n == 0 && room >= 0 && ListStage(item, limit, size, cost, before, room0, n, values, now, room)
    ensures Meters(ListOf(item, limit), ListWeight(size, cost), before, room0, Success(values), now, room0 - room)
  {
    Unsealed(Items(item, n, values));
    Unsealed(ItemsCost(cost));
    Unsealed(Onto(values));
    assert values + [] == values;
  }

  // ----- reads -----

  function StringCost(v: seq<byte>): nat {
    Padded(|v|)
  }

  function Room(budget: SessionBudget): int
    reads budget
  {
    budget.maximum - budget.retained
  }

  /** Nothing is kept of a failure. */
  ghost predicate Kept<T>(r: Result<T>, grew: int) {
    grew >= 0 && (r.Failure? ==> grew == 0)
  }

  ghost function StringWeight(): seq<byte> -> nat {
    Sealed(StringCost)
  }

  ghost function CountWeight(size: nat): u64 -> nat {
    Sealed(Times(size))
  }

  ghost function Number(ok: u64 -> bool): Grammar<u64> {
    Sealed(Guarded(ParseInt, ok))
  }

  ghost function AnyString(limit: nat): Grammar<seq<byte>> {
    Sealed(StringParser(limit))
  }

  ghost function Str(limit: nat, ok: seq<byte> -> bool): Grammar<seq<byte>> {
    Sealed(Guarded(StringParser(limit), ok))
  }

  method ReadNumber(reader: Reader, ok: u64 -> bool, ghost room: nat) returns (r: Result<u64>)
    modifies reader
    ensures Meters(Number(ok), Free(), old(reader.View()), room, r, reader.View(), 0)
  {
    Unsealed(Guarded(ParseInt, ok));
    r := reader.ReadInteger();
    if r.Success? && !ok(r.value) {
      r := Failure;
    }
  }

  /** A count within its limit, charged for the room its items will take. */
  method ReadCount(reader: Reader, limit: nat, size: nat, budget: SessionBudget) returns (r: Result<u64>)
    requires budget.Valid()
    modifies reader, budget
    ensures budget.Valid() && Kept(r, budget.retained - old(budget.retained))
    ensures Meters(Number(UpTo(limit)), CountWeight(size), old(reader.View()), old(Room(budget)),
                   r, reader.View(), old(Room(budget)) - Room(budget))
  {
    Unsealed(Guarded(ParseInt, UpTo(limit)));
    Unsealed(Times(size));
    r := reader.ReadInteger();
    if r.Failure? || r.value > limit {
      return Failure;
    }
    var charged := budget.Charge(size * r.value);
    if !charged {
      return Failure;
    }
  }

  method ReadString(reader: Reader, limit: nat, budget: SessionBudget) returns (r: Result<seq<byte>>)
    requires budget.Valid()
    modifies reader, budget
    ensures budget.Valid() && Kept(r, budget.retained - old(budget.retained))
    ensures Meters(AnyString(limit), StringWeight(), old(reader.View()), old(Room(budget)),
                   r, reader.View(), old(Room(budget)) - Room(budget))
  {
    Unsealed(StringParser(limit));
    Unsealed(StringCost);
    r := reader.ReadCharged(limit, budget);
  }

  /** A charged string that must pass a check. */
  method ReadChecked(reader: Reader, limit: nat, ok: seq<byte> -> bool, budget: SessionBudget) returns (r: Result<seq<byte>>)
    requires budget.Valid()
    modifies reader, budget
    ensures budget.Valid() && Kept(r, budget.retained - old(budget.retained))
    ensures Meters(Str(limit, ok), StringWeight(), old(reader.View()), old(Room(budget)),
                   r, reader.View(), old(Room(budget)) - Room(budget))
  {
    Unsealed(Guarded(StringParser(limit), ok));
    Unsealed(StringCost);
    r := reader.ReadCharged(limit, budget);
    if r.Success? && !ok(r.value) {
      budget.Release(Padded(|r.value|));
      r := Failure;
    }
  }

  // ----- lists of strings -----

  /** Passes a check of its own and, where `distinct`, differs from those before it. */
  function Fits(valid: seq<byte> -> bool, distinct: bool, before: Strings): seq<byte> -> bool {
    v => valid(v) && (distinct ==> v !in before)
  }

  ghost function StringItem(limit: nat, valid: seq<byte> -> bool, distinct: bool): Strings -> Grammar<seq<byte>> {
    Sealed(StringItemBody(limit, valid, distinct))
  }

  ghost function StringItemBody(limit: nat, valid: seq<byte> -> bool, distinct: bool): Strings -> Grammar<seq<byte>> {
    before => Str(limit, Fits(valid, distinct, before))
  }

  /** `size_of::<Vec<u8>>()` on a 64-bit target. */
  const VEC_SIZE := 24

  ghost function StringsGrammar(maximum: nat, limit: nat, valid: seq<byte> -> bool, distinct: bool): Grammar<Strings> {
    ListOf(StringItem(limit, valid, distinct), maximum)
  }

  ghost function StringsWeight(): Strings -> nat {
    ListWeight(VEC_SIZE, StringWeight())
  }

  /** A counted list of strings; a failure gives back everything charged. */
  method ReadStrings(reader: Reader, maximum: nat, limit: nat, valid: seq<byte> -> bool, distinct: bool, budget: SessionBudget)
    returns (r: Result<Strings>)
    requires budget.Valid()
    modifies reader, budget
    ensures budget.Valid() && Kept(r, budget.retained - old(budget.retained))
    ensures Meters(StringsGrammar(maximum, limit, valid, distinct), StringsWeight(), old(reader.View()), old(Room(budget)),
                   r, reader.View(), old(Room(budget)) - Room(budget))
  {
    ghost var item := StringItem(limit, valid, distinct);
    Unsealed(StringItemBody(limit, valid, distinct));
    ghost var before, room := reader.View(), Room(budget);
    var start := budget.retained;
    var count := ReadCount(reader, maximum, VEC_SIZE, budget);
    ListStart(item, maximum, VEC_SIZE, StringWeight(), before, room, count, reader.View(), Room(budget));
    if count.Failure? {
      return Failure;
    }
    var values: Strings := [];
    var left: nat := count.value;
    ghost var now, room1 := reader.View(), Room(budget);
    while left > 0
      invariant budget.Valid() && start <= budget.retained && now == reader.View() && room1 == Room(budget)
      invariant ListStage(item, maximum, VEC_SIZE, StringWeight(), before, room, left, values, now, room1)
    {
      var value := ReadChecked(reader, limit, Fits(valid, distinct, values), budget);
      ghost var after, room2 := reader.View(), Room(budget);
      ListItem(item, maximum, VEC_SIZE, StringWeight(), before, room, left, values, now, room1, value, after, room2);
      if value.Failure? {
        budget.Release(budget.retained - start);
        return Failure;
      }
      values, left, now, room1 := Push(values, value), left - 1, after, room2;
    }
    ListDone(item, maximum, VEC_SIZE, StringWeight(), before, room, left, values, now, room1);
    return Success(values);
  }

  // ----- costs, spelled out -----

  /** A length rounded up to whole groups of eight. */
  function Eights(n: nat): nat {
    (n + 7) / 8 * 8
  }

  /** What each string of a list keeps: its place of 24 bytes, and its padded length. */
  function KeptSizes(values: Strings): seq<nat> {
    seq(|values|, i requires 0 <= i < |values| => 24 + Eights(|values[i]|))
  }

  lemma {:induction false} StringsCostIs(values: Strings)
    ensures ListCost(VEC_SIZE, StringCost)(values) == Sum(KeptSizes(values))
    decreases |values|
  {
    if values != [] {
      StringsCostIs(values[1..]);
      PaddedIs(|values[0]|);
      assert KeptSizes(values)[1..] == KeptSizes(values[1..]);
    }
  }
}
