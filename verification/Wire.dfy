/** The worker protocol's primitives: little-endian integers, byte strings padded with
    zeros to eight bytes, and counted collections, each as a writer and a parser that are
    exact inverses. */
module Wire {
  import opened Basics
  import opened Bytes

  const MAX_U64 := 0xffff_ffff_ffff_ffff
  type u64 = x: int | 0 <= x <= MAX_U64

  datatype Parsed<+T> = Parsed(value: T, rest: seq<byte>) | Failed

  lemma Assoc<T>(a: seq<T>, b: seq<T>, c: seq<T>)
    ensures (a + b) + c == a + (b + c)
  {
  }

  // ----- integers -----

  function Pow256(k: nat): (r: nat)
    ensures r > 0
  {
    if k == 0 then 1 else 256 * Pow256(k - 1)
  }

  lemma Pow256Of8()
    ensures Pow256(8) == MAX_U64 + 1
  {
    assert Pow256(4) == 0x1_0000_0000;
    assert Pow256(8) == 256 * (256 * (256 * (256 * Pow256(4))));
  }

  function LittleEndian(n: nat, k: nat): (r: seq<byte>)
    ensures |r| == k
  {
    if k == 0 then [] else [n % 256] + LittleEndian(n / 256, k - 1)
  }

  function FromLittleEndian(s: seq<byte>): (r: nat)
    ensures r < Pow256(|s|)
  {
    if s == [] then 0 else s[0] + 256 * FromLittleEndian(s[1..])
  }

  lemma {:induction false} LittleEndianRoundTrip(n: nat, k: nat)
    requires n < Pow256(k)
    ensures FromLittleEndian(LittleEndian(n, k)) == n
    decreases k
  {
    if k > 0 {
      assert LittleEndian(n, k)[1..] == LittleEndian(n / 256, k - 1);
      LittleEndianRoundTrip(n / 256, k - 1);
    }
  }

  lemma LowestByte(b: byte, n: nat)
    ensures (b + 256 * n) % 256 == b && (b + 256 * n) / 256 == n
  {
  }

  lemma {:induction false} LittleEndianCanonical(s: seq<byte>)
    ensures LittleEndian(FromLittleEndian(s), |s|) == s
    decreases |s|
  {
    if s != [] {
      LittleEndianCanonical(s[1..]);
      LowestByte(s[0], FromLittleEndian(s[1..]));
      assert s == [s[0]] + s[1..];
    }
  }

  function EncodeInt(n: u64): (r: seq<byte>)
    ensures |r| == 8
  {
    LittleEndian(n, 8)
  }

  function DecodeInt(s: seq<byte>): u64
    requires |s| == 8
  {
    Pow256Of8();
    FromLittleEndian(s)
  }

  function ParseInt(s: seq<byte>): (r: Parsed<u64>)
    ensures r.Parsed? <==> |s| >= 8
    ensures r.Parsed? ==> r.rest == s[8..]
  {
    if |s| < 8 then Failed else Parsed(DecodeInt(s[..8]), s[8..])
  }

  predicate AnyInt(n: u64) { true }

  predicate IsBoolean(n: u64) { n <= 1 }

  predicate AnyBytes(v: seq<byte>) { true }

  /** The cast of a length to `u64`. */
  function AsU64(n: nat): (r: u64)
    ensures n <= MAX_U64 ==> r == n
  {
    n % (MAX_U64 + 1)
  }

  // ----- exact inverses -----

  /** `parse` undoes `encode` on the valid values, whatever follows, and accepts nothing
      else: the parsed bytes are the encoding of a valid value. */
  ghost predicate Inverse<T(!new)>(parse: seq<byte> -> Parsed<T>, encode: T -> seq<byte>, valid: T -> bool) {
    && (forall v, rest :: valid(v) ==> parse(encode(v) + rest) == Parsed(v, rest))
    && (forall s :: parse(s).Parsed? ==> valid(parse(s).value) && s == encode(parse(s).value) + parse(s).rest)
  }

  lemma InverseRead<T(!new)>(parse: seq<byte> -> Parsed<T>, encode: T -> seq<byte>, valid: T -> bool, v: T, rest: seq<byte>)
    requires Inverse(parse, encode, valid) && valid(v)
    ensures parse(encode(v) + rest) == Parsed(v, rest)
  {
  }

  lemma InverseWritten<T(!new)>(parse: seq<byte> -> Parsed<T>, encode: T -> seq<byte>, valid: T -> bool, s: seq<byte>)
    requires Inverse(parse, encode, valid) && parse(s).Parsed?
    ensures valid(parse(s).value) && s == encode(parse(s).value) + parse(s).rest
  {
  }

  /** The bytes of an integer, least significant first. */
  lemma IntBytes(n: u64, i: nat)
    requires i < 8
    ensures EncodeInt(n)[i] == n / Pow256(i) % 256
  {
    LittleEndianAt(n, 8, i);
  }

  lemma {:induction false} LittleEndianAt(n: nat, k: nat, i: nat)
    requires i < k
    ensures LittleEndian(n, k)[i] == n / Pow256(i) % 256
    decreases k
  {
    if i > 0 {
      assert LittleEndian(n, k)[i] == LittleEndian(n / 256, k - 1)[i - 1];
      LittleEndianAt(n / 256, k - 1, i - 1);
      DivideTwice(n, 256, Pow256(i - 1));
    }
  }

  lemma Recombine(n: int, a: int, b: int, q: int, r: int, p: int, t: int)
    requires n == a * q + r && q == b * p + t
    ensures n == (a * b) * p + (a * t + r)
  {
    Distribute(a, b * p, t);
    Regroup(a, b, p);
  }

  lemma DivideTwice(n: nat, a: nat, b: nat)
    requires a > 0 && b > 0
    ensures a * b > 0 && n / a / b == n / (a * b)
  {
    var q, r := n / a, n % a;
    var p, t := q / b, q % b;
    MulUp(a, b, t, r);
    Recombine(n, a, b, q, r, p, t);
    Quotient(n, a * b, p, a * t + r);
  }

  lemma MulUp(a: nat, b: nat, t: nat, r: nat)
    requires r < a && t < b
    ensures a * t + r < a * b && a * t >= 0
  {
    Distribute(a, t, 1);
    MulMonotone(t + 1, b, a);
    MulMonotone(0, t, a);
  }

  lemma NoSmallMultiple(d: int, e: int)
    requires -d < d * e < d
    ensures e == 0
  {
    if e >= 1 { MulMonotone(1, e, d); }
    if e <= -1 { MulMonotone(e, -1, d); }
  }

  lemma Quotient(n: nat, d: nat, p: nat, m: nat)
    requires m < d && n == d * p + m
    ensures n / d == p
  {
    var q := n / d;
    assert n == d * q + n % d;
    assert d * (p - q) == d * p - d * q;
    NoSmallMultiple(d, p - q);
  }

  lemma IntRoundTrip(n: u64, rest: seq<byte>)
    ensures ParseInt(EncodeInt(n) + rest) == Parsed(n, rest)
  {
    Pow256Of8();
    assert (EncodeInt(n) + rest)[..8] == EncodeInt(n);
    LittleEndianRoundTrip(n, 8);
  }

  lemma IntCanonical(s: seq<byte>)
    requires ParseInt(s).Parsed?
    ensures s == EncodeInt(ParseInt(s).value) + ParseInt(s).rest
  {
    LittleEndianCanonical(s[..8]);
    assert s == s[..8] + s[8..];
  }

  lemma IntInverse()
    ensures Inverse(ParseInt, EncodeInt, AnyInt)
  {
    forall v: u64, rest | AnyInt(v) ensures ParseInt(EncodeInt(v) + rest) == Parsed(v, rest) {
      IntRoundTrip(v, rest);
    }
    forall s | ParseInt(s).Parsed? ensures s == EncodeInt(ParseInt(s).value) + ParseInt(s).rest {
      IntCanonical(s);
    }
  }

  // ----- padded byte strings -----

  /** What a string costs on the wire and in the session budget: its length rounded up to
      whole groups of eight. */
  function Padded(n: nat): (r: nat)
    ensures n <= r < n + 8
  {
    if n == 0 then 0 else 8 + (if n <= 8 then 0 else Padded(n - 8))
  }

  function Padding(n: nat): nat {
    Padded(n) - n
  }

  /** The form the source computes: a remainder, made up to the next multiple. */
  lemma PaddingFormula(n: nat)
    ensures Padded(n) % 8 == 0 && Padding(n) == (8 - n % 8) % 8
  {
    var groups, extra := n / 8, n % 8;
    PaddedGroups(groups, extra);
    WholeGroups(groups);
    WholeGroups(groups + 1);
    assert n == 8 * groups + extra;
    if extra > 0 {
      assert (8 - extra) % 8 == 8 - extra;
    }
  }

  /** Rounded up to whole groups of eight. */
  lemma PaddedIs(n: nat)
    ensures Padded(n) == (n + 7) / 8 * 8
  {
    var groups, extra := n / 8, n % 8;
    PaddedGroups(groups, extra);
    assert n == 8 * groups + extra;
    if extra == 0 {
      assert (n + 7) / 8 == groups;
    } else {
      assert (n + 7) / 8 == groups + 1;
    }
  }

  lemma WholeGroups(groups: nat)
    ensures (8 * groups) % 8 == 0
  {
  }

  lemma {:induction false} PaddedGroups(groups: nat, extra: nat)
    requires extra < 8
    ensures Padded(8 * groups + extra) == 8 * groups + if extra == 0 then 0 else 8
    decreases groups
  {
    if groups > 0 {
      PaddedGroups(groups - 1, extra);
    }
  }

  function Zeros(n: nat): (r: seq<byte>)
    ensures |r| == n
  {
    seq(n, _ => 0)
  }

  predicate AllZero(s: seq<byte>) {
    forall i :: 0 <= i < |s| ==> s[i] == 0
  }

  function EncodeString(v: seq<byte>): seq<byte> {
    EncodeInt(AsU64(|v|)) + (v + Zeros(Padding(|v|)))
  }

  /** A string's bytes: its length, itself, and zeros up to a multiple of eight. */
  lemma StringBytes(v: seq<byte>)
    ensures var s := EncodeString(v);
            && |s| == 8 + (|v| + 7) / 8 * 8
            && s[..8] == EncodeInt(AsU64(|v|)) && s[8..8 + |v|] == v
            && forall i :: 8 + |v| <= i < |s| ==> s[i] == 0
  {
    PaddedIs(|v|);
  }

  /** The body of a string of `length` bytes: payload, then zeros. */
  function ParseBody(s: seq<byte>, length: nat): (r: Parsed<seq<byte>>)
    ensures r.Parsed? ==> |r.value| == length && |s| == Padded(length) + |r.rest|
  {
    if |s| < Padded(length) || !AllZero(s[length..Padded(length)]) then Failed
    else Parsed(s[..length], s[Padded(length)..])
  }

  /** The whole-buffer reader of a string of at most `limit` bytes. */
  function ParseString(s: seq<byte>, limit: nat): (r: Parsed<seq<byte>>)
    ensures r.Parsed? ==> |r.value| <= limit && |s| == 8 + Padded(|r.value|) + |r.rest|
  {
    match ParseInt(s)
    case Failed => Failed
    case Parsed(length, rest) => if length > limit then Failed else ParseBody(rest, length)
  }

  lemma PaddedRoundTrip(v: seq<byte>, rest: seq<byte>)
    ensures ParseBody((v + Zeros(Padding(|v|))) + rest, |v|) == Parsed(v, rest)
  {
    var all := (v + Zeros(Padding(|v|))) + rest;
    assert all[..|v|] == v && all[Padded(|v|)..] == rest;
    assert all[|v|..Padded(|v|)] == Zeros(Padding(|v|));
  }

  lemma PaddedCanonical(s: seq<byte>, length: nat)
    requires ParseBody(s, length).Parsed?
    ensures s == (ParseBody(s, length).value + Zeros(Padding(length))) + ParseBody(s, length).rest
  {
    assert s[length..Padded(length)] == Zeros(Padding(length));
    assert s == s[..length] + s[length..Padded(length)] + s[Padded(length)..];
  }

  lemma FitsU64(n: nat)
    requires n <= MAX_U64
    ensures AsU64(n) == n
  {
  }

  lemma StringRoundTrip(v: seq<byte>, limit: nat, rest: seq<byte>)
    requires |v| <= limit <= MAX_U64
    ensures ParseString(EncodeString(v) + rest, limit) == Parsed(v, rest)
  {
    var body := v + Zeros(Padding(|v|));
    FitsU64(|v|);
    Assoc(EncodeInt(|v|), body, rest);
    IntRoundTrip(|v|, body + rest);
    PaddedRoundTrip(v, rest);
  }

  lemma StringCanonical(s: seq<byte>, limit: nat)
    requires limit <= MAX_U64 && ParseString(s, limit).Parsed?
    ensures s == EncodeString(ParseString(s, limit).value) + ParseString(s, limit).rest
  {
    IntCanonical(s);
    var Parsed(length, rest) := ParseInt(s);
    var value := ParseString(s, limit).value;
    PaddedCanonical(rest, length);
    FitsU64(length);
    Assoc(EncodeInt(length), value + Zeros(Padding(length)), ParseString(s, limit).rest);
  }

  function StringParser(limit: nat): seq<byte> -> Parsed<seq<byte>> {
    s => ParseString(s, limit)
  }

  function AtMostBytes(limit: nat): seq<byte> -> bool {
    v => |v| <= limit
  }

  lemma StringInverse(limit: nat)
    requires limit <= MAX_U64
    ensures Inverse(StringParser(limit), EncodeString, AtMostBytes(limit))
  {
    forall v: seq<byte>, rest | |v| <= limit ensures ParseString(EncodeString(v) + rest, limit) == Parsed(v, rest) {
      StringRoundTrip(v, limit, rest);
    }
    forall s | ParseString(s, limit).Parsed? ensures s == EncodeString(ParseString(s, limit).value) + ParseString(s, limit).rest {
      StringCanonical(s, limit);
    }
  }

  // ----- counted collections -----

  function EncodeItems<T>(encode: T -> seq<byte>, values: seq<T>): seq<byte> {
    if values == [] then [] else encode(values[0]) + EncodeItems(encode, values[1..])
  }

  lemma EncodeItemsFirst<T>(encode: T -> seq<byte>, values: seq<T>, rest: seq<byte>)
    requires values != []
    ensures EncodeItems(encode, values) + rest == encode(values[0]) + (EncodeItems(encode, values[1..]) + rest)
  {
  }

  lemma {:induction false} EncodeItemsAppend<T>(encode: T -> seq<byte>, values: seq<T>, v: T)
    ensures EncodeItems(encode, values + [v]) == EncodeItems(encode, values) + encode(v)
    decreases |values|
  {
    if values == [] {
      assert EncodeItems(encode, [v]) == encode(v) + EncodeItems(encode, []);
    } else {
      assert (values + [v])[0] == values[0] && (values + [v])[1..] == values[1..] + [v];
      EncodeItemsAppend(encode, values[1..], v);
    }
  }

  /** Reads `count` items after those already read. */
  function ParseItems<T>(parse: seq<byte> -> Parsed<T>, s: seq<byte>, count: nat, before: seq<T>): (r: Parsed<seq<T>>)
    ensures r.Parsed? ==> |r.value| == |before| + count && before <= r.value
    decreases count
  {
    if count == 0 then Parsed(before, s)
    else
      match parse(s)
      case Failed => Failed
      case Parsed(v, rest) => ParseItems(parse, rest, count - 1, before + [v])
  }

  lemma ItemsStep<T>(parse: seq<byte> -> Parsed<T>, s: seq<byte>, count: nat, before: seq<T>)
    requires count > 0
    ensures ParseItems(parse, s, count, before) ==
            if parse(s).Failed? then Failed else ParseItems(parse, parse(s).rest, count - 1, before + [parse(s).value])
  {
  }

  ghost predicate AllValid<T>(valid: T -> bool, values: seq<T>) {
    forall i :: 0 <= i < |values| ==> valid(values[i])
  }

  lemma {:induction false} ItemsRoundTrip<T(!new)>(parse: seq<byte> -> Parsed<T>, encode: T -> seq<byte>, valid: T -> bool,
                                                  values: seq<T>, before: seq<T>, rest: seq<byte>)
    requires Inverse(parse, encode, valid) && AllValid(valid, values)
    ensures ParseItems(parse, EncodeItems(encode, values) + rest, |values|, before) == Parsed(before + values, rest)
    decreases |values|
  {
    if values == [] {
      assert EncodeItems(encode, values) + rest == rest;
      assert before + values == before;
    } else {
      var tail := EncodeItems(encode, values[1..]);
      assert EncodeItems(encode, values) + rest == encode(values[0]) + (tail + rest);
      ItemsRoundTrip(parse, encode, valid, values[1..], before + [values[0]], rest);
      assert before + [values[0]] + values[1..] == before + values;
    }
  }

  lemma {:induction false} ItemsCanonical<T(!new)>(parse: seq<byte> -> Parsed<T>, encode: T -> seq<byte>, valid: T -> bool,
                                                  s: seq<byte>, count: nat, before: seq<T>)
    requires Inverse(parse, encode, valid) && ParseItems(parse, s, count, before).Parsed?
    ensures var r := ParseItems(parse, s, count, before);
            var values := r.value[|before|..];
            AllValid(valid, values) && s == EncodeItems(encode, values) + r.rest
    decreases count
  {
    var r := ParseItems(parse, s, count, before);
    if count > 0 {
      var Parsed(v, rest) := parse(s);
      ItemsCanonical(parse, encode, valid, rest, count - 1, before + [v]);
      var values, tail := r.value[|before|..], r.value[|before| + 1..];
      assert values == [v] + tail;
      assert values[0] == v && values[1..] == tail;
      assert s == encode(v) + (EncodeItems(encode, tail) + r.rest);
      assert EncodeItems(encode, values) == encode(v) + EncodeItems(encode, tail);
    }
  }

  function EncodeList<T>(encode: T -> seq<byte>, values: seq<T>): seq<byte> {
    EncodeInt(AsU64(|values|)) + EncodeItems(encode, values)
  }

  function ParseList<T>(parse: seq<byte> -> Parsed<T>, s: seq<byte>, limit: nat): (r: Parsed<seq<T>>)
    ensures r.Parsed? ==> |r.value| <= limit
  {
    match ParseInt(s)
    case Failed => Failed
    case Parsed(count, rest) => if count > limit then Failed else ParseItems(parse, rest, count, [])
  }

  /** A list is its items behind their count. */
  lemma ListBehindCount<T(!new)>(parse: seq<byte> -> Parsed<T>, count: u64, s: seq<byte>, limit: nat)
    requires count <= limit
    ensures ParseList(parse, EncodeInt(count) + s, limit) == ParseItems(parse, s, count, [])
  {
    IntRoundTrip(count, s);
  }

  lemma ListRoundTrip<T(!new)>(parse: seq<byte> -> Parsed<T>, encode: T -> seq<byte>, valid: T -> bool,
                               values: seq<T>, limit: nat, rest: seq<byte>)
    requires Inverse(parse, encode, valid) && AllValid(valid, values) && |values| <= limit <= MAX_U64
    ensures ParseList(parse, EncodeList(encode, values) + rest, limit) == Parsed(values, rest)
  {
    var items := EncodeItems(encode, values);
    assert AsU64(|values|) == |values|;
    Assoc(EncodeInt(|values|), items, rest);
    ListBehindCount(parse, |values|, items + rest, limit);
    ItemsRoundTrip(parse, encode, valid, values, [], rest);
    assert [] + values == values;
  }

  lemma ListCanonical<T(!new)>(parse: seq<byte> -> Parsed<T>, encode: T -> seq<byte>, valid: T -> bool, s: seq<byte>, limit: nat)
    requires Inverse(parse, encode, valid) && limit <= MAX_U64 && ParseList(parse, s, limit).Parsed?
    ensures var r := ParseList(parse, s, limit);
            AllValid(valid, r.value) && s == EncodeList(encode, r.value) + r.rest
  {
    IntCanonical(s);
    var Parsed(count, rest) := ParseInt(s);
    ItemsCanonical(parse, encode, valid, rest, count, []);
    var r := ParseList(parse, s, limit);
    assert r.value[0..] == r.value;
    assert s == EncodeInt(count) + (EncodeItems(encode, r.value) + r.rest);
  }

  /** The writers' loop: each item appended to the output in turn. */
  method WriteItems<T>(out: seq<byte>, encode: T -> seq<byte>, values: seq<T>) returns (r: seq<byte>)
    ensures r == out + EncodeItems(encode, values)
  {
    r := out;
    var i := 0;
    while i < |values|
      invariant 0 <= i <= |values| && r == out + EncodeItems(encode, values[..i])
    {
      assert values[..i + 1] == values[..i] + [values[i]];
      EncodeItemsAppend(encode, values[..i], values[i]);
      r := r + encode(values[i]);
      i := i + 1;
    }
    assert values[..i] == values;
  }

  /** A count, then the items. */
  method WriteList<T>(out: seq<byte>, encode: T -> seq<byte>, values: seq<T>) returns (r: seq<byte>)
    ensures r == out + EncodeList(encode, values)
  {
    r := WriteItems(out + EncodeInt(AsU64(|values|)), encode, values);
    Assoc(out, EncodeInt(AsU64(|values|)), EncodeItems(encode, values));
  }
}
