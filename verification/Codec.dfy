/** Combinators: parsers and writers built from parts are exact inverses when their parts are. */
module Codec {
  import opened Bytes
  import opened Wire

  /** A part followed by a part whose grammar depends on it. */
  function Then<A, B>(p: seq<byte> -> Parsed<A>, q: A -> seq<byte> -> Parsed<B>): seq<byte> -> Parsed<(A, B)> {
    s =>
      match p(s)
      case Failed => Failed
      case Parsed(a, rest) =>
        match q(a)(rest)
        case Failed => Failed
        case Parsed(b, rest') => Parsed((a, b), rest')
  }

  function Both<A, B>(p: seq<byte> -> Parsed<A>, q: seq<byte> -> Parsed<B>): seq<byte> -> Parsed<(A, B)> {
    Then(p, Always(q))
  }

  function Always<A, B>(b: B): A -> B {
    _ => b
  }

  function EncodeBoth<A, B>(e: A -> seq<byte>, f: B -> seq<byte>): ((A, B)) -> seq<byte> {
    (v: (A, B)) => e(v.0) + f(v.1)
  }

  function ValidThen<A, B>(x: A -> bool, y: A -> B -> bool): ((A, B)) -> bool {
    (v: (A, B)) => x(v.0) && y(v.0)(v.1)
  }

  function ValidBoth<A, B>(x: A -> bool, y: B -> bool): ((A, B)) -> bool {
    ValidThen(x, Always(y))
  }

  lemma ThenInverse<A(!new), B(!new)>(p: seq<byte> -> Parsed<A>, e: A -> seq<byte>, x: A -> bool,
                                      q: A -> seq<byte> -> Parsed<B>, f: B -> seq<byte>, y: A -> B -> bool)
    requires Inverse(p, e, x) && forall a :: Inverse(q(a), f, y(a))
    ensures Inverse(Then(p, q), EncodeBoth(e, f), ValidThen(x, y))
  {
    forall v, rest | ValidThen(x, y)(v) ensures Then(p, q)(EncodeBoth(e, f)(v) + rest) == Parsed(v, rest) {
      assert (e(v.0) + f(v.1)) + rest == e(v.0) + (f(v.1) + rest);
    }
    forall s | Then(p, q)(s).Parsed?
      ensures var r := Then(p, q)(s); ValidThen(x, y)(r.value) && s == EncodeBoth(e, f)(r.value) + r.rest
    {
      var Parsed(a, rest) := p(s);
      var Parsed(b, rest') := q(a)(rest);
      assert e(a) + (f(b) + rest') == (e(a) + f(b)) + rest';
    }
  }

  lemma BothInverse<A(!new), B(!new)>(p: seq<byte> -> Parsed<A>, e: A -> seq<byte>, x: A -> bool,
                                      q: seq<byte> -> Parsed<B>, f: B -> seq<byte>, y: B -> bool)
    requires Inverse(p, e, x) && Inverse(q, f, y)
    ensures Inverse(Both(p, q), EncodeBoth(e, f), ValidBoth(x, y))
  {
    ThenInverse(p, e, x, Always(q), f, Always(y));
  }

  function Attach<A, B>(a: A, r: Parsed<B>): Parsed<(A, B)> {
    match r
    case Failed => Failed
    case Parsed(b, rest) => Parsed((a, b), rest)
  }

  /** One part at a time, as a reader goes. */
  lemma BothStep<A, B>(p: seq<byte> -> Parsed<A>, q: seq<byte> -> Parsed<B>, s: seq<byte>)
    ensures Both(p, q)(s) == if p(s).Failed? then Failed else Attach(p(s).value, q(p(s).rest))
  {
  }

  function ListParser<T>(p: seq<byte> -> Parsed<T>, limit: nat): seq<byte> -> Parsed<seq<T>> {
    s => ParseList(p, s, limit)
  }

  function ListEncoder<T>(e: T -> seq<byte>): seq<T> -> seq<byte> {
    v => EncodeList(e, v)
  }

  function ValidList<T>(x: T -> bool, limit: nat): seq<T> -> bool {
    v => |v| <= limit && forall i :: 0 <= i < |v| ==> x(v[i])
  }

  lemma ListInverse<T(!new)>(p: seq<byte> -> Parsed<T>, e: T -> seq<byte>, x: T -> bool, limit: nat)
    requires Inverse(p, e, x) && limit <= MAX_U64
    ensures Inverse(ListParser(p, limit), ListEncoder(e), ValidList(x, limit))
  {
    forall v, rest | ValidList(x, limit)(v) ensures ListParser(p, limit)(ListEncoder(e)(v) + rest) == Parsed(v, rest) {
      ListRoundTrip(p, e, x, v, limit, rest);
    }
    forall s | ListParser(p, limit)(s).Parsed?
      ensures var r := ListParser(p, limit)(s); ValidList(x, limit)(r.value) && s == ListEncoder(e)(r.value) + r.rest
    {
      ListCanonical(p, e, x, s, limit);
    }
  }
}
