/** Grammars that check their values as they read them, against plain grammars whose values
    are checked once everything is parsed. */
module Checked {
  import opened Basics
  import opened Bytes
  import opened Wire
  import opened Codec
  import opened Streams
  import opened Metered

  /** Reading with checks on the way is parsing plainly and checking the value. */
  ghost predicate Checks<T(!new)>(g: Grammar<T>, plain: Grammar<T>, ok: T -> bool) {
    forall s :: g(s) == Guarded(plain, ok)(s)
  }

  lemma ChecksSame<T(!new)>(g: Grammar<T>, plain: Grammar<T>, x: T -> bool, y: T -> bool)
    requires Checks(g, plain, x) && forall v :: x(v) == y(v)
    ensures Checks(g, plain, y)
  {
    forall s ensures g(s) == Guarded(plain, y)(s) {
      assert g(s) == Guarded(plain, x)(s);
    }
  }

  lemma ChecksBoth<A(!new), B(!new)>(g: Grammar<A>, p: Grammar<A>, x: A -> bool, h: Grammar<B>, q: Grammar<B>, y: B -> bool)
    requires Checks(g, p, x) && Checks(h, q, y)
    ensures Checks(Both(g, h), Both(p, q), ValidBoth(x, y))
  {
    forall s ensures Both(g, h)(s) == Guarded(Both(p, q), ValidBoth(x, y))(s) {
      BothStep(g, h, s);
      BothStep(p, q, s);
      assert g(s) == Guarded(p, x)(s);
      if p(s).Parsed? {
        assert h(p(s).rest) == Guarded(q, y)(p(s).rest);
      }
    }
  }

  /** Every item passes the check against the items before it. */
  predicate Accepts<T>(ok: (T, seq<T>) -> bool, before: seq<T>, values: seq<T>)
    decreases |values|
  {
    values == [] || (ok(values[0], before) && Accepts(ok, before + [values[0]], values[1..]))
  }

  function AcceptsAll<T>(ok: (T, seq<T>) -> bool): seq<T> -> bool {
    values => Accepts(ok, [], values)
  }

  function Against<T>(ok: (T, seq<T>) -> bool, before: seq<T>): T -> bool {
    v => ok(v, before)
  }

  ghost predicate ItemChecks<T(!new)>(item: seq<T> -> Grammar<T>, plain: Grammar<T>, ok: (T, seq<T>) -> bool) {
    forall before :: Checks(item(before), plain, Against(ok, before))
  }

  function CheckedItems<T>(all: Parsed<seq<T>>, ok: (T, seq<T>) -> bool, before: seq<T>): Parsed<seq<T>>
    requires all.Parsed? ==> before <= all.value
  {
    match all
    case Failed => Failed
    case Parsed(values, rest) =>
      if Accepts(ok, before, values[|before|..]) then Parsed(values[|before|..], rest) else Failed
  }

  lemma {:induction false} ItemsChecked<T(!new)>(item: seq<T> -> Grammar<T>, plain: Grammar<T>, ok: (T, seq<T>) -> bool,
                                                n: nat, before: seq<T>, s: seq<byte>)
    requires ItemChecks(item, plain, ok)
    ensures ParseMore(item, n, before, s) == CheckedItems(ParseItems(plain, s, n, before), ok, before)
    decreases n
  {
    if n > 0 {
      MoreStep(item, n, before, s);
      assert Checks(item(before), plain, Against(ok, before));
      assert item(before)(s) == Guarded(plain, Against(ok, before))(s);
      if plain(s).Parsed? {
        var Parsed(v, rest) := plain(s);
        ItemsChecked(item, plain, ok, n - 1, before + [v], rest);
        var all := ParseItems(plain, rest, n - 1, before + [v]);
        if all.Parsed? {
          FirstOfRest(before, v, all.value);
        }
      }
    }
  }

  lemma FirstOfRest<T>(before: seq<T>, v: T, all: seq<T>)
    requires before + [v] <= all
    ensures var values := all[|before|..];
            values == [v] + all[|before| + 1..] && values[0] == v && values[1..] == all[|before| + 1..]
  {
  }

  lemma ChecksList<T(!new)>(item: seq<T> -> Grammar<T>, plain: Grammar<T>, ok: (T, seq<T>) -> bool, limit: nat)
    requires ItemChecks(item, plain, ok)
    ensures Checks(ListGrammar(item, limit), ListParser(plain, limit), AcceptsAll(ok))
  {
    forall s ensures ListGrammar(item, limit)(s) == Guarded(ListParser(plain, limit), AcceptsAll(ok))(s) {
      var count := Guarded(ParseInt, UpTo(limit))(s);
      assert ListParser(plain, limit)(s) == ParseList(plain, s, limit);
      if count.Parsed? {
        ItemsChecked(item, plain, ok, count.value, [], count.rest);
        var all := ParseItems(plain, count.rest, count.value, []);
        assert ListGrammar(item, limit)(s) == ParseMore(item, count.value, [], count.rest);
        if all.Parsed? {
          assert all.value[0..] == all.value;
          assert AcceptsAll(ok)(all.value) == Accepts(ok, [], all.value);
        }
      }
    }
  }

  // ----- the sealed grammars of the decoders -----

  lemma ChecksRow<A(!new), B(!new)>(g: Grammar<A>, p: Grammar<A>, x: A -> bool, h: Grammar<B>, q: Grammar<B>, y: B -> bool)
    requires Checks(g, p, x) && Checks(h, q, y)
    ensures Checks(Row(g, h), Both(p, q), ValidBoth(x, y))
  {
    ChecksBoth(g, p, x, h, q, y);
    Unsealed(Both(g, h));
  }

  lemma ChecksListOf<T(!new)>(item: seq<T> -> Grammar<T>, plain: Grammar<T>, ok: (T, seq<T>) -> bool, limit: nat)
    requires ItemChecks(item, plain, ok)
    ensures Checks(ListOf(item, limit), ListParser(plain, limit), AcceptsAll(ok))
  {
    ChecksList(item, plain, ok, limit);
    Unsealed(ListGrammar(item, limit));
  }

  lemma ChecksSealed<T(!new)>(plain: Grammar<T>, ok: T -> bool)
    ensures Checks(Sealed(Guarded(plain, ok)), plain, ok)
  {
    Unsealed(Guarded(plain, ok));
  }

  function Anything<T>(): T -> bool {
    _ => true
  }

  lemma ChecksAny(limit: nat)
    ensures Checks(AnyString(limit), StringParser(limit), Anything())
  {
    Unsealed(StringParser(limit));
  }

  /** A string that fits those before it, as a check on items. */
  function FitsItem(valid: seq<byte> -> bool, distinct: bool): (seq<byte>, Strings) -> bool {
    (v, before) => Fits(valid, distinct, before)(v)
  }

  lemma ChecksStrings(maximum: nat, limit: nat, valid: seq<byte> -> bool, distinct: bool)
    ensures Checks(StringsGrammar(maximum, limit, valid, distinct), ListParser(StringParser(limit), maximum),
            AcceptsAll(FitsItem(valid, distinct)))
  {
    var item, ok := StringItem(limit, valid, distinct), FitsItem(valid, distinct);
    Unsealed(StringItemBody(limit, valid, distinct));
    forall before ensures Checks(item(before), StringParser(limit), Against(ok, before)) {
      assert item(before) == Str(limit, Fits(valid, distinct, before));
      ChecksSealed(StringParser(limit), Fits(valid, distinct, before));
      ChecksSame(item(before), StringParser(limit), Fits(valid, distinct, before), Against(ok, before));
    }
    ChecksListOf(item, StringParser(limit), ok, maximum);
  }

  /** What a checked grammar makes of written values, and of anything else. */
  lemma ChecksInverse<T(!new)>(g: Grammar<T>, plain: Grammar<T>, ok: T -> bool, encode: T -> seq<byte>, valid: T -> bool,
          v: T, rest: seq<byte>)
    requires Checks(g, plain, ok) && Inverse(plain, encode, valid) && valid(v)
    ensures g(encode(v) + rest) == if ok(v) then Parsed(v, rest) else Failed
  {
    var s := encode(v) + rest;
    assert g(s) == Guarded(plain, ok)(s);
    assert plain(s) == Parsed(v, rest);
  }

  lemma ChecksCanonical<T(!new)>(g: Grammar<T>, plain: Grammar<T>, ok: T -> bool, encode: T -> seq<byte>,
          valid: T -> bool, s: seq<byte>)
    requires Checks(g, plain, ok) && Inverse(plain, encode, valid) && g(s).Parsed?
    ensures valid(g(s).value) && ok(g(s).value) && s == encode(g(s).value) + g(s).rest
  {
    assert g(s) == Guarded(plain, ok)(s);
    assert plain(s).Parsed?;
  }

  ghost predicate Takes<T(!new)>(item: seq<T> -> Grammar<T>, encode: T -> seq<byte>, written: T -> bool,
                                 taken: (T, seq<T>) -> bool) {
    forall v, before, rest :: written(v) ==> item(before)(encode(v) + rest) == if taken(v, before) then Parsed(v, rest) else Failed
  }

  /** Items written one after the other are all read back, or the reading fails. */
  lemma {:induction false} ItemsTaken<T(!new)>(item: seq<T> -> Grammar<T>, encode: T -> seq<byte>, written: T -> bool,
                                              taken: (T, seq<T>) -> bool, values: seq<T>, before: seq<T>)
    requires Takes(item, encode, written, taken) && Each(written, values)
    ensures ParseMore(item, |values|, before, EncodeItems(encode, values)) ==
            if Accepts(taken, before, values) then Parsed(values, []) else Failed
    decreases |values|
  {
    if values != [] {
      var v, more := values[0], values[1..];
      assert written(v);
      MoreStep(item, |values|, before, EncodeItems(encode, values));
      ItemsTaken(item, encode, written, taken, more, before + [v]);
      assert values == [v] + more;
    }
  }

  /** What was parsed is a written value that is taken, and the bytes are its encoding. */
  ghost predicate Given<T>(r: Parsed<T>, s: seq<byte>, before: seq<T>, encode: T -> seq<byte>, written: T -> bool,
                           taken: (T, seq<T>) -> bool)
    requires r.Parsed?
  {
    written(r.value) && taken(r.value, before) && s == encode(r.value) + r.rest
  }

  ghost predicate Gives<T(!new)>(item: seq<T> -> Grammar<T>, encode: T -> seq<byte>, written: T -> bool,
                                 taken: (T, seq<T>) -> bool) {
    forall s, before :: item(before)(s).Parsed? ==> Given(item(before)(s), s, before, encode, written, taken)
  }

  /** Items that were read, one after the other, were written so. */
  lemma {:induction false} ItemsGiven<T(!new)>(item: seq<T> -> Grammar<T>, encode: T -> seq<byte>, written: T -> bool,
                                              taken: (T, seq<T>) -> bool, n: nat, before: seq<T>, s: seq<byte>)
    requires Gives(item, encode, written, taken) && ParseMore(item, n, before, s).Parsed?
    ensures var r := ParseMore(item, n, before, s);
            Each(written, r.value) && Accepts(taken, before, r.value) && s == EncodeItems(encode, r.value) + r.rest
    decreases n
  {
    if n == 0 {
      assert EncodeItems(encode, []) + s == s;
    } else {
      MoreStep(item, n, before, s);
      assert Given(item(before)(s), s, before, encode, written, taken);
      var v, rest := item(before)(s).value, item(before)(s).rest;
      ItemsGiven(item, encode, written, taken, n - 1, before + [v], rest);
      var more := ParseMore(item, n - 1, before + [v], rest);
      FirstGiven(v, more.value, encode, more.rest);
    }
  }

  lemma FirstGiven<T>(v: T, more: seq<T>, encode: T -> seq<byte>, rest: seq<byte>)
    ensures var all := [v] + more;
            all[0] == v && all[1..] == more && encode(v) + (EncodeItems(encode, more) + rest) == EncodeItems(encode, all) + rest
  {
    var all := [v] + more;
    assert all[1..] == more;
    Assoc(encode(v), EncodeItems(encode, more), rest);
  }

  // ----- what acceptance says about a list -----

  /** Items valid on their own whose keys differ from all keys before. */
  function Keyed<T, K(==)>(valid: T -> bool, key: T -> K, distinct: bool): (T, seq<T>) -> bool {
    (v, before) => valid(v) && (distinct ==> key(v) !in Keys(key, before))
  }

  function Keys<T, K>(key: T -> K, values: seq<T>): (r: seq<K>)
    ensures |r| == |values| && forall i :: 0 <= i < |r| ==> r[i] == key(values[i])
  {
    seq(|values|, i requires 0 <= i < |values| => key(values[i]))
  }

  /** Acceptance one by one is validity of each and distinctness of the keys. */
  lemma {:induction false} AcceptsKeyed<T, K>(valid: T -> bool, key: T -> K, distinct: bool, before: seq<T>, values: seq<T>)
    requires distinct ==> Distinct(Keys(key, before))
    ensures Accepts(Keyed(valid, key, distinct), before, values) <==>
            (forall i :: 0 <= i < |values| ==> valid(values[i])) && (distinct ==> Distinct(Keys(key, before + values)))
    decreases |values|
  {
    if values == [] {
      assert before + values == before;
    } else {
      var v, rest := values[0], values[1..];
      var next := before + [v];
      assert next + rest == before + values;
      if distinct { AppendKey(key, before, v); }
      if distinct && !Distinct(Keys(key, next)) {
        PrefixDistinct(key, next, rest);
      } else {
        AcceptsKeyed(valid, key, distinct, next, rest);
        assert forall i :: 0 <= i < |rest| ==> rest[i] == values[i + 1];
      }
    }
  }

  lemma AppendKey<T, K>(key: T -> K, before: seq<T>, v: T)
    requires Distinct(Keys(key, before))
    ensures Distinct(Keys(key, before + [v])) <==> key(v) !in Keys(key, before)
  {
    var old_, new_ := Keys(key, before), Keys(key, before + [v]);
    assert forall i :: 0 <= i < |before| ==> new_[i] == old_[i];
    assert new_[|before|] == key(v);
    if key(v) in old_ {
      var i :| 0 <= i < |old_| && old_[i] == key(v);
      assert new_[i] == new_[|before|];
    }
  }

  lemma PrefixDistinct<T, K>(key: T -> K, a: seq<T>, b: seq<T>)
    ensures Distinct(Keys(key, a + b)) ==> Distinct(Keys(key, a))
  {
    var k, l := Keys(key, a), Keys(key, a + b);
    if Distinct(l) {
      forall i, j | 0 <= i < j < |k| ensures k[i] != k[j] {
        assert l[i] == k[i] && l[j] == k[j];
      }
    }
  }

  /** Two checks are passed together exactly when each is passed. */
  lemma {:induction false} AcceptsBoth<T>(x: (T, seq<T>) -> bool, y: (T, seq<T>) -> bool, z: (T, seq<T>) -> bool,
          before: seq<T>, values: seq<T>)
    requires forall v, b :: z(v, b) == (x(v, b) && y(v, b))
    ensures Accepts(z, before, values) <==> Accepts(x, before, values) && Accepts(y, before, values)
    decreases |values|
  {
    if values != [] {
      AcceptsBoth(x, y, z, before + [values[0]], values[1..]);
    }
  }

  lemma {:induction false} AcceptsSame<T>(x: (T, seq<T>) -> bool, y: (T, seq<T>) -> bool, before: seq<T>, values: seq<T>)
    requires forall v, b :: x(v, b) == y(v, b)
    ensures Accepts(x, before, values) <==> Accepts(y, before, values)
    decreases |values|
  {
    if values != [] {
      AcceptsSame(x, y, before + [values[0]], values[1..]);
    }
  }

  ghost predicate Each<T>(valid: T -> bool, values: seq<T>) {
    forall i :: 0 <= i < |values| ==> valid(values[i])
  }

  /** Acceptance of a whole list. */
  lemma AcceptsAllKeyed<T, K>(ok: (T, seq<T>) -> bool, valid: T -> bool, key: T -> K, distinct: bool, values: seq<T>)
    requires forall v, b :: ok(v, b) == Keyed(valid, key, distinct)(v, b)
    ensures AcceptsAll(ok)(values) <==> Each(valid, values) && (distinct ==> Distinct(Keys(key, values)))
  {
    AcceptsSame(ok, Keyed(valid, key, distinct), [], values);
    AcceptsKeyed(valid, key, distinct, [], values);
    assert [] + values == values;
  }

  function Self(v: seq<byte>): seq<byte> { v }

  lemma SelfKeys(values: Strings)
    ensures Keys(Self, values) == values
  {
  }

  /** A list of strings is accepted when each is valid and, where asked, all differ. */
  lemma AcceptsStrings(valid: seq<byte> -> bool, distinct: bool, values: Strings)
    ensures AcceptsAll(FitsItem(valid, distinct))(values) <==> Each(valid, values) && (distinct ==> Distinct(values))
  {
    forall v: seq<byte>, b: Strings ensures FitsItem(valid, distinct)(v, b) == Keyed(valid, Self, distinct)(v, b) {
      SelfKeys(b);
      assert Fits(valid, distinct, b)(v) == (valid(v) && (distinct ==> v !in b));
      assert FitsItem(valid, distinct)(v, b) == Fits(valid, distinct, b)(v);
      assert FitsItem(valid, distinct)(v, b) == (valid(v) && (distinct ==> v !in b));
      assert Keyed(valid, Self, distinct)(v, b) == (valid(v) && (distinct ==> Self(v) !in Keys(Self, b)));
    }
    AcceptsAllKeyed(FitsItem(valid, distinct), valid, Self, distinct, values);
    SelfKeys(values);
  }

  // ----- costs -----

  lemma {:induction false} CostSame<T>(c: T -> nat, d: T -> nat, values: seq<T>)
    requires forall v :: c(v) == d(v)
    ensures Cost(c, values) == Cost(d, values)
    decreases |values|
  {
    if values != [] {
      CostSame(c, d, values[1..]);
    }
  }

  lemma ListWeightIs<T>(size: nat, c: T -> nat, d: T -> nat, values: seq<T>)
    requires forall v :: c(v) == d(v)
    ensures ListWeight(size, c)(values) == ListCost(size, d)(values)
  {
    Unsealed(ListCost(size, c));
    CostSame(c, d, values);
  }
}
