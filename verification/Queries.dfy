/** Path queries: the server's decoders of QueryValidPaths and QueryMissing requests, its
    QueryMissing and path-info responses, and the client's readers of them. */
module Queries {
  import opened Basics
  import opened Bytes
  import opened Wire
  import opened Codec
  import opened Budget
  import opened Streams
  import opened Metered
  import opened Checked
  import opened StorePaths

  const MAXIMUM_PATHS := 65536
  const MAXIMUM_SIGNATURES := 256
  const HASH_BYTES := 64
  const SIGNATURE_BYTES := 4096
  const CONTENT_ADDRESS_BYTES := 4096
  /** The default session budget. */
  const BUDGET := 16 * 1024 * 1024

  // ----- counted strings, in plain terms -----

  ghost predicate StringsOk(values: Strings, valid: seq<byte> -> bool, distinct: bool) {
    Each(valid, values) && (distinct ==> Distinct(values))
  }

  /** The list is parsed, then checked, then weighed. */
  ghost function DecodeStrings(s: seq<byte>, maximum: nat, limit: nat, valid: seq<byte> -> bool, distinct: bool,
          room: int): Parsed<Strings> {
    match ParseList(StringParser(limit), s, maximum)
    case Failed => Failed
    case Parsed(values, rest) =>
      if StringsOk(values, valid, distinct) && ListCost(VEC_SIZE, StringCost)(values) <= room then Parsed(values, rest) else Failed
  }

  lemma StringsMean(s: seq<byte>, maximum: nat, limit: nat, valid: seq<byte> -> bool, distinct: bool, room: int)
    ensures Weighed(StringsGrammar(maximum, limit, valid, distinct)(s), StringsWeight(), room) == DecodeStrings(s,
            maximum, limit, valid, distinct, room)
    ensures forall values :: StringsWeight()(values) == ListCost(VEC_SIZE, StringCost)(values)
  {
    var g, p, ok := StringsGrammar(maximum, limit, valid, distinct), ListParser(StringParser(limit), maximum),
            AcceptsAll(FitsItem(valid, distinct));
    ChecksStrings(maximum, limit, valid, distinct);
    assert g(s) == Guarded(p, ok)(s);
    forall values ensures StringsWeight()(values) == ListCost(VEC_SIZE, StringCost)(values) {
      StringsWeightMeans(values);
    }
    if p(s).Parsed? {
      AcceptsStrings(valid, distinct, p(s).value);
    }
  }

  lemma StringsWeightMeans(values: Strings)
    ensures StringsWeight()(values) == ListCost(VEC_SIZE, StringCost)(values)
  {
    Unsealed(StringCost);
    ListWeightIs(VEC_SIZE, StringWeight(), StringCost, values);
  }

  /** Written lists are read back exactly when they pass the checks and fit. */
  lemma StringsRoundTrip(values: Strings, rest: seq<byte>, maximum: nat, limit: nat, valid: seq<byte> -> bool,
          distinct: bool, room: int)
    requires |values| <= maximum <= MAX_U64 && limit <= MAX_U64 && Each(AtMostBytes(limit), values)
    ensures DecodeStrings(EncodeList(EncodeString, values) + rest, maximum, limit, valid, distinct, room) ==
            if StringsOk(values, valid, distinct) && ListCost(VEC_SIZE, StringCost)(values) <= room then Parsed(values,
                    rest) else Failed
  {
    StringInverse(limit);
    ListRoundTrip(StringParser(limit), EncodeString, AtMostBytes(limit), values, maximum, rest);
  }

  // ----- requests -----

  /** `complete_query_valid_paths`; the flag is read from protocol 1.27 on. */
  ghost function DecodeValidPaths(s: seq<byte>, withFlag: bool, room: int): Parsed<(Strings, bool)> {
    match DecodeStrings(s, MAXIMUM_PATHS, MAXIMUM_PATH, ValidPath, true, room)
    case Failed => Failed
    case Parsed(paths, rest) =>
      if !withFlag then Parsed((paths, false), rest)
      else
        match ParseInt(rest)
        case Failed => Failed
        case Parsed(flag, rest') => if flag > 1 then Failed else Parsed((paths, flag == 1), rest')
  }

  method ReadValidPaths(reader: Reader, withFlag: bool, budget: SessionBudget) returns (r: Result<(Strings, bool)>)
    requires budget.Valid() && !reader.framed
    modifies reader, budget
    ensures budget.Valid()
    ensures Conforms(old(reader.View()), DecodeValidPaths(old(reader.input), withFlag, old(Room(budget))), r, reader.View())
    ensures budget.retained == old(budget.retained) + if r.Success? then ListCost(VEC_SIZE, StringCost)(r.value.0) else 0
  {
    StringsMean(reader.input, MAXIMUM_PATHS, MAXIMUM_PATH, ValidPath, true, Room(budget));
    var start := budget.retained;
    var paths := ReadStrings(reader, MAXIMUM_PATHS, MAXIMUM_PATH, ValidPath, true, budget);
    if paths.Failure? {
      return Failure;
    }
    if !withFlag {
      return Success((paths.value, false));
    }
    var flag := reader.ReadInteger();
    if flag.Failure? || flag.value > 1 {
      budget.Release(budget.retained - start);
      return Failure;
    }
    return Success((paths.value, flag.value == 1));
  }

  ghost function DecodeTargets(s: seq<byte>, room: int): Parsed<Strings> {
    DecodeStrings(s, MAXIMUM_PATHS, MAXIMUM_DERIVED, ServerDerived, true, room)
  }

  /** `complete_query_missing`: the targets, then, on an input that `reports` unread data, the
      end of the message. */
  method ReadMissingRequest(reader: Reader, reports: bool, budget: SessionBudget) returns (r: Result<Strings>)
    requires budget.Valid() && !reader.framed
    modifies reader, budget
    ensures budget.Valid()
    ensures var decoded := DecodeTargets(old(reader.input), old(Room(budget)));
            && (r.Success? <==> decoded.Parsed? && (reports ==> decoded.rest == []))
            && (r.Success? ==> r.value == decoded.value && reader.input == decoded.rest)
    ensures budget.retained == old(budget.retained) + if r.Success? then ListCost(VEC_SIZE, StringCost)(r.value) else 0
  {
    StringsMean(reader.input, MAXIMUM_PATHS, MAXIMUM_DERIVED, ServerDerived, true, Room(budget));
    var start := budget.retained;
    r := ReadStrings(reader, MAXIMUM_PATHS, MAXIMUM_DERIVED, ServerDerived, true, budget);
    if r.Success? && reports && reader.input != [] {
      budget.Release(budget.retained - start);
      r := Failure;
    }
  }

  /** The targets a client writes arrive exactly when no two are equal and they fit: the
      client checks each, but not that they differ. */
  lemma MissingRequestArrivesIff(targets: Strings, rest: seq<byte>, room: int)
    requires |targets| <= MAXIMUM_PATHS && Each(ClientDerived, targets)
    ensures DecodeTargets(EncodeList(EncodeString, targets) + rest, room) ==
            if Distinct(targets) && ListCost(VEC_SIZE, StringCost)(targets) <= room then Parsed(targets, rest) else Failed
  {
    forall i | 0 <= i < |targets| ensures ServerDerived(targets[i]) && AtMostBytes(MAXIMUM_DERIVED)(targets[i]) {
      ClientDerivedIsServerDerived(targets[i]);
    }
    assert Each(ServerDerived, targets);
    StringsRoundTrip(targets, rest, MAXIMUM_PATHS, MAXIMUM_DERIVED, ServerDerived, true, room);
  }

  /** A target given twice passes the client's checks and is refused, whatever the budget. */
  lemma RepeatedTargetIsRefused(target: seq<byte>, rest: seq<byte>, room: int)
    requires ClientDerived(target)
    ensures DecodeTargets(EncodeList(EncodeString, [target, target]) + rest, room) == Failed
  {
    var twice := [target, target];
    assert twice[0] == twice[1];
    MissingRequestArrivesIff(twice, rest, room);
  }

  /** One such target: the path of "x". */
  lemma RepeatedPathIsRefused(rest: seq<byte>, room: int)
    ensures var target := SamplePath([120]);
            ClientDerived(target) && DecodeTargets(EncodeList(EncodeString, [target, target]) + rest, room) == Failed
  {
    SamplePathIsValid([120]);
    PathIsDerived(SamplePath([120]));
    RepeatedTargetIsRefused(SamplePath([120]), rest, room);
  }

  // ----- sets, as the client reads them -----

  /** What a set of at most `maximum` strings of at most `limit` bytes can cost. */
  function SetBound(maximum: nat, limit: nat): nat {
    maximum * (VEC_SIZE + (limit + 7))
  }

  lemma TwoMultiples(n: nat, a: nat, b: nat)
    ensures a * n + n * b == n * (a + b)
  {
  }

  lemma {:induction false} CostBound(values: Strings, limit: nat)
    requires Each(AtMostBytes(limit), values)
    ensures Cost(StringCost, values) <= |values| * (limit + 7)
    decreases |values|
  {
    if values != [] {
      assert AtMostBytes(limit)(values[0]);
      CostBound(values[1..], limit);
      NextMultiple(|values[1..]|, limit + 7);
    }
  }

  lemma SizeBound(n: nat, maximum: nat, cost: nat, each: nat)
    requires n <= maximum && cost <= n * each
    ensures VEC_SIZE * n + cost <= maximum * (VEC_SIZE + each)
  {
    TwoMultiples(n, VEC_SIZE, each);
    MulMonotone(n, maximum, VEC_SIZE + each);
  }

  lemma SetCostBound(values: Strings, maximum: nat, limit: nat)
    requires |values| <= maximum && Each(AtMostBytes(limit), values)
    ensures ListCost(VEC_SIZE, StringCost)(values) <= SetBound(maximum, limit)
  {
    CostBound(values, limit);
    SizeBound(|values|, maximum, Cost(StringCost, values), limit + 7);
  }

  /** A budget with room for the largest set never refuses one. */
  lemma SetNeverRefused(s: seq<byte>, maximum: nat, limit: nat, valid: seq<byte> -> bool, room: int)
    requires maximum <= MAX_U64 && limit <= MAX_U64 && SetBound(maximum, limit) <= room
    ensures Weighed(StringsGrammar(maximum, limit, valid, true)(s), StringsWeight(), room) == StringsGrammar(maximum,
            limit, valid, true)(s)
  {
    var g, p, ok := StringsGrammar(maximum, limit, valid, true), ListParser(StringParser(limit), maximum),
            AcceptsAll(FitsItem(valid, true));
    ChecksStrings(maximum, limit, valid, true);
    assert g(s) == Guarded(p, ok)(s);
    if p(s).Parsed? {
      StringInverse(limit);
      ListCanonical(StringParser(limit), EncodeString, AtMostBytes(limit), s, maximum);
      StringsWeightMeans(p(s).value);
      SetCostBound(p(s).value, maximum, limit);
    }
  }

  /** `read_client_byte_string_set`: its charges are dropped when it returns. */
  method ReadSet(reader: Reader, maximum: nat, limit: nat, valid: seq<byte> -> bool,
          budget: SessionBudget) returns (r: Result<Strings>)
    requires budget.Valid() && maximum <= MAX_U64 && limit <= MAX_U64 && SetBound(maximum, limit) <= Room(budget)
    modifies reader, budget
    ensures budget.Valid() && budget.retained == old(budget.retained)
    ensures Conforms(old(reader.View()), StringsGrammar(maximum, limit, valid, true)(old(reader.View()).logical), r, reader.View())
  {
    SetNeverRefused(reader.View().logical, maximum, limit, valid, Room(budget));
    var start := budget.retained;
    r := ReadStrings(reader, maximum, limit, valid, true, budget);
    budget.Release(budget.retained - start);
  }

  // ----- the QueryMissing response -----

  ghost predicate Ascending(s: Strings) {
    forall i, j :: 0 <= i < j < |s| ==> Less(s[i], s[j])
  }

  /** `sort` and `dedup`: the paths in order, each once. */
  method SortDedup(paths: Strings) returns (r: Strings)
    ensures Ascending(r) && Elements(r) == Elements(paths)
  {
    r := [];
    var todo := Elements(paths);
    while todo != {}
      invariant Elements(r) + todo == Elements(paths) && Ascending(r)
      invariant forall x, y :: x in r && y in todo ==> Less(x, y)
      decreases |todo|
    {
      var first;
      first, todo := PopFirst(todo);
      AscendingAppend(r, first);
      r := r + [first];
    }
  }

  lemma AscendingAppend(s: Strings, last: seq<byte>)
    requires Ascending(s) && forall x :: x in s ==> Less(x, last)
    ensures Ascending(s + [last]) && Elements(s + [last]) == Elements(s) + {last}
  {
  }

  /** There is only one such list. */
  lemma {:induction false} AscendingUnique(a: Strings, b: Strings)
    requires Ascending(a) && Ascending(b) && Elements(a) == Elements(b)
    ensures a == b
    decreases |a|
  {
    SomeElement(a);
    SomeElement(b);
    if a != [] {
      assert a[0] in Elements(a);
      var i :| 0 <= i < |b| && b[i] == a[0];
      var j :| 0 <= j < |a| && a[j] == b[0];
      if i > 0 {
        assert Less(b[0], b[i]);
        if j > 0 { assert Less(a[0], a[j]); LessTransitive(a[0], a[j], a[0]); }
        LessIrreflexive(a[0]);
      }
      TailElements(a);
      TailElements(b);
      AscendingUnique(a[1..], b[1..]);
      assert a == [a[0]] + a[1..] && b == [b[0]] + b[1..];
    }
  }

  lemma SomeElement(a: Strings)
    ensures a != [] ==> a[0] in Elements(a)
  {
  }

  lemma TailElements(a: Strings)
    requires a != [] && Ascending(a)
    ensures Elements(a[1..]) == Elements(a) - {a[0]} && Ascending(a[1..])
  {
    forall x ensures x in Elements(a[1..]) <==> x in Elements(a) && x != a[0] {
      if x in a[1..] {
        var i :| 0 <= i < |a| - 1 && a[1..][i] == x;
        assert Less(a[0], a[i + 1]);
        LessIrreflexive(a[0]);
      }
      if x in a && x != a[0] {
        var i :| 0 <= i < |a| && a[i] == x;
        assert a[1..][i - 1] == x;
      }
    }
  }

  lemma AscendingDistinct(a: Strings)
    requires Ascending(a)
    ensures Distinct(a)
  {
    forall i, j | 0 <= i < j < |a| ensures a[i] != a[j] {
      assert Less(a[i], a[j]);
      LessIrreflexive(a[i]);
    }
  }

  type Sizes = (u64, u64)
  type FromUnknown = (Strings, Sizes)
  type FromSubstitute = (Strings, FromUnknown)
  /** Paths to build, to substitute and unknown, then download and NAR size. */
  type Missing = (Strings, FromSubstitute)

  ghost function PathSet(): Grammar<Strings> {
    StringsGrammar(MAXIMUM_PATHS, MAXIMUM_PATH, ValidPath, true)
  }

  ghost function SizesGrammar(): Grammar<Sizes> { Row(Number(AnyInt), Number(AnyInt)) }

  ghost function FromUnknownGrammar(): Grammar<FromUnknown> { Row(PathSet(), SizesGrammar()) }

  ghost function FromSubstituteGrammar(): Grammar<FromSubstitute> { Row(PathSet(), FromUnknownGrammar()) }

  ghost function MissingGrammar(): Grammar<Missing> { Row(PathSet(), FromSubstituteGrammar()) }

  lemma RowStep<A, B>(p: Grammar<A>, q: Grammar<B>, s: seq<byte>)
    ensures Row(p, q)(s) == if p(s).Failed? then Failed else Attach(p(s).value, q(p(s).rest))
  {
    Unsealed(Both(p, q));
    BothStep(p, q, s);
  }

  /** The response, part by part; each set's charges are dropped before the next, so that the
      budget of a query has room for the largest. */
  method ReadMissing(reader: Reader) returns (r: Result<Missing>)
    modifies reader
    ensures Conforms(old(reader.View()), MissingGrammar()(old(reader.View()).logical), r, reader.View())
  {
    var budget := new SessionBudget(BUDGET);
    RowStep(PathSet(), FromSubstituteGrammar(), reader.View().logical);
    var build := ReadSet(reader, MAXIMUM_PATHS, MAXIMUM_PATH, ValidPath, budget);
    if build.Failure? { return Failure; }
    RowStep(PathSet(), FromUnknownGrammar(), reader.View().logical);
    var substitute := ReadSet(reader, MAXIMUM_PATHS, MAXIMUM_PATH, ValidPath, budget);
    if substitute.Failure? { return Failure; }
    RowStep(PathSet(), SizesGrammar(), reader.View().logical);
    var unknown := ReadSet(reader, MAXIMUM_PATHS, MAXIMUM_PATH, ValidPath, budget);
    if unknown.Failure? { return Failure; }
    RowStep(Number(AnyInt), Number(AnyInt), reader.View().logical);
    var download := ReadNumber(reader, AnyInt, 0);
    if download.Failure? { return Failure; }
    var nar := ReadNumber(reader, AnyInt, 0);
    if nar.Failure? { return Failure; }
    return Success((build.value, (substitute.value, (unknown.value, (download.value, nar.value)))));
  }

  function ToBuild(m: Missing): Strings { m.0 }

  function ToSubstitute(m: Missing): Strings { m.1.0 }

  function NotKnown(m: Missing): Strings { m.1.1.0 }

  function DownloadSize(m: Missing): u64 { m.1.1.1.0 }

  function UnpackedSize(m: Missing): u64 { m.1.1.1.1 }

  function EncodeMissing(m: Missing): seq<byte> {
    EncodeList(EncodeString, ToBuild(m)) + (EncodeList(EncodeString, ToSubstitute(m)) + (EncodeList(EncodeString, NotKnown(m))
    + (EncodeInt(DownloadSize(m)) + EncodeInt(UnpackedSize(m)))))
  }

  /** The elements of `paths`, each once and in order. */
  ghost predicate SortedSet(written: Strings, paths: Strings) {
    Ascending(written) && Elements(written) == Elements(paths)
  }

  /** `write_query_missing_path_set`. */
  method WritePathSet(out: seq<byte>, paths: Strings) returns (r: Option<seq<byte>>, ghost written: Strings)
    ensures r.Some? <==> Sendable(paths)
    ensures r.Some? ==> r.value == out + EncodeList(EncodeString, written)
    ensures r.Some? ==> SortedSet(written, paths)
    ensures r.Some? ==> |written| <= MAXIMUM_PATHS && Each(ValidPath, written)
  {
    written := [];
    SendableIff(paths);
    if |paths| > MAXIMUM_PATHS {
      return None, [];
    }
    for i := 0 to |paths|
      invariant Each(ValidPath, paths[..i])
    {
      if !ValidPath(paths[i]) {
        return None, [];
      }
    }
    assert paths[..|paths|] == paths;
    var sorted := SortDedup(paths);
    DedupShortens(sorted, paths);
    var bytes := WriteList(out, EncodeString, sorted);
    return Some(bytes), sorted;
  }

  /** `write_query_missing_response`: written exactly when every path is valid and no set is
      too large, and then as the sorted sets, which a client reads back. */
  method WriteMissing(out: seq<byte>, build: Strings, substitute: Strings, unknown: Strings, download: u64, nar: u64)
    returns (r: Option<seq<byte>>, ghost m: Missing)
    ensures r.Some? <==> Sendable(build) && Sendable(substitute) && Sendable(unknown)
    ensures r.Some? ==> r.value == out + EncodeMissing(m)
    ensures r.Some? ==> forall rest :: MissingGrammar()(EncodeMissing(m) + rest) == Parsed(m, rest)
    ensures r.Some? ==> SortedSet(ToBuild(m), build) && SortedSet(ToSubstitute(m), substitute) && SortedSet(NotKnown(m), unknown)
    ensures r.Some? ==> DownloadSize(m) == download && UnpackedSize(m) == nar
  {
    m := ([], ([], ([], (download, nar))));
    var first, a := WritePathSet(out, build);
    if first.None? {
      return None, m;
    }
    var second, b := WritePathSet(first.value, substitute);
    if second.None? {
      return None, m;
    }
    var third, c := WritePathSet(second.value, unknown);
    if third.None? {
      return None, m;
    }
    m := (a, (b, (c, (download, nar))));
    ghost var e1, e2, e3 := EncodeList(EncodeString, a), EncodeList(EncodeString, b), EncodeList(EncodeString, c);
    ghost var sizes := EncodeInt(download) + EncodeInt(nar);
    Assoc(out, e1, e2 + (e3 + sizes));
    Assoc(out + e1, e2, e3 + sizes);
    Assoc(out + e1 + e2, e3, sizes);
    Assoc(third.value, EncodeInt(download), EncodeInt(nar));
    r := Some(third.value + EncodeInt(download) + EncodeInt(nar));
    forall rest ensures MissingGrammar()(EncodeMissing(m) + rest) == Parsed(m, rest) {
      MissingRoundTrip(m, rest);
    }
  }

  ghost predicate Sendable(paths: Strings) {
    |paths| <= 65536 && forall i :: 0 <= i < |paths| ==> SpelledPath(paths[i])
  }

  lemma SendableIff(paths: Strings)
    ensures Sendable(paths) <==> |paths| <= MAXIMUM_PATHS && Each(ValidPath, paths)
  {
    forall i | 0 <= i < |paths| ensures ValidPath(paths[i]) <==> SpelledPath(paths[i]) {
      ValidPathIff(paths[i]);
    }
  }

  lemma {:induction false} AscendingCount(s: Strings)
    requires Ascending(s)
    ensures |Elements(s)| == |s|
    decreases |s|
  {
    if s != [] {
      TailElements(s);
      AscendingCount(s[1..]);
      assert s[0] in Elements(s);
    }
  }

  lemma DedupShortens(sorted: Strings, paths: Strings)
    requires Ascending(sorted) && Elements(sorted) == Elements(paths) && Each(ValidPath, paths)
    ensures |sorted| <= |paths| && Each(ValidPath, sorted)
  {
    AscendingCount(sorted);
    CardinalityDistinct(paths);
    forall i | 0 <= i < |sorted| ensures ValidPath(sorted[i]) {
      assert sorted[i] in Elements(paths);
      var j :| 0 <= j < |paths| && paths[j] == sorted[i];
    }
  }

  ghost predicate SetWritten(s: Strings) {
    |s| <= MAXIMUM_PATHS && Each(ValidPath, s) && Ascending(s)
  }

  lemma SetReadBack(s: Strings, rest: seq<byte>)
    requires SetWritten(s)
    ensures PathSet()(EncodeList(EncodeString, s) + rest) == Parsed(s, rest)
  {
    AscendingDistinct(s);
    forall i | 0 <= i < |s| ensures AtMostBytes(MAXIMUM_PATH)(s[i]) {
      assert ValidPath(s[i]);
    }
    var room := ListCost(VEC_SIZE, StringCost)(s);
    var input := EncodeList(EncodeString, s) + rest;
    StringsRoundTrip(s, rest, MAXIMUM_PATHS, MAXIMUM_PATH, ValidPath, true, room);
    StringsMean(input, MAXIMUM_PATHS, MAXIMUM_PATH, ValidPath, true, room);
  }

  lemma NumberReadBack(n: u64, rest: seq<byte>)
    ensures Number(AnyInt)(EncodeInt(n) + rest) == Parsed(n, rest)
  {
    Unsealed(Guarded(ParseInt, AnyInt));
    IntRoundTrip(n, rest);
  }

  /** A response is read back as the sets that were written, each sorted and without repeats,
      and the sizes; nothing more of the input is touched. */
  lemma MissingRoundTrip(m: Missing, rest: seq<byte>)
    requires SetWritten(ToBuild(m)) && SetWritten(ToSubstitute(m)) && SetWritten(NotKnown(m))
    ensures MissingGrammar()(EncodeMissing(m) + rest) == Parsed(m, rest)
  {
    var a, b, c := EncodeList(EncodeString, ToBuild(m)), EncodeList(EncodeString, ToSubstitute(m)), EncodeList(EncodeString, NotKnown(m));
    var d, n := EncodeInt(DownloadSize(m)), EncodeInt(UnpackedSize(m));
    var s4 := d + (n + rest);
    var s3 := c + s4;
    var s2 := b + s3;
    Assoc(a, b + (c + (d + n)), rest);
    Assoc(b, c + (d + n), rest);
    Assoc(c, d + n, rest);
    Assoc(d, n, rest);
    SetReadBack(ToBuild(m), s2);
    SetReadBack(ToSubstitute(m), s3);
    SetReadBack(NotKnown(m), s4);
    NumberReadBack(DownloadSize(m), n + rest);
    NumberReadBack(UnpackedSize(m), rest);
    RowStep(Number(AnyInt), Number(AnyInt), s4);
    RowStep(PathSet(), SizesGrammar(), s3);
    RowStep(PathSet(), FromUnknownGrammar(), s2);
    RowStep(PathSet(), FromSubstituteGrammar(), a + s2);
  }

  // ----- the path-info response -----

  predicate LowerHash(v: seq<byte>) { |v| == HASH_BYTES && All(v, IsLowerHex) }

  datatype PathInfo = PathInfo(deriver: Option<seq<byte>>, hash: seq<byte>, references: Strings, time: u64, size: u64,
                               ultimate: bool, signatures: Strings, contentAddress: Option<seq<byte>>)

  ghost function SignatureSet(): Grammar<Strings> {
    StringsGrammar(MAXIMUM_SIGNATURES, SIGNATURE_BYTES, AnyBytes, true)
  }

  type FromSignatures = (Strings, seq<byte>)
  type FromUltimate = (u64, FromSignatures)
  type FromSize = (u64, FromUltimate)
  type FromTime = (u64, FromSize)
  type FromReferences = (Strings, FromTime)
  type FromHash = (seq<byte>, FromReferences)
  type FromDeriver = (seq<byte>, FromHash)

  ghost function FromSignaturesGrammar(): Grammar<FromSignatures> { Row(SignatureSet(), Str(CONTENT_ADDRESS_BYTES, AnyBytes)) }

  ghost function FromUltimateGrammar(): Grammar<FromUltimate> { Row(Number(IsBoolean), FromSignaturesGrammar()) }

  ghost function FromSizeGrammar(): Grammar<FromSize> { Row(Number(AnyInt), FromUltimateGrammar()) }

  ghost function FromTimeGrammar(): Grammar<FromTime> { Row(Number(AnyInt), FromSizeGrammar()) }

  ghost function FromReferencesGrammar(): Grammar<FromReferences> { Row(PathSet(), FromTimeGrammar()) }

  ghost function FromHashGrammar(): Grammar<FromHash> { Row(Str(HASH_BYTES, LowerHash), FromReferencesGrammar()) }

  ghost function FromDeriverGrammar(): Grammar<FromDeriver> { Row(Str(MAXIMUM_PATH, OptionalPath), FromHashGrammar()) }

  /** A string that is charged while the response is read, by a budget with room for it. */
  method ReadShort(reader: Reader, limit: nat, ok: seq<byte> -> bool, budget: SessionBudget) returns (r: Result<seq<byte>>)
    requires budget.Valid() && limit + 7 <= Room(budget)
    modifies reader, budget
    ensures budget.Valid() && budget.retained <= old(budget.retained) + limit + 7
    ensures Conforms(old(reader.View()), Str(limit, ok)(old(reader.View()).logical), r, reader.View())
  {
    Unsealed(Guarded(StringParser(limit), ok));
    Unsealed(StringCost);
    r := ReadChecked(reader, limit, ok, budget);
  }

  function Optional(v: seq<byte>): Option<seq<byte>> {
    if v == [] then None else Some(v)
  }

  function OrEmpty(v: Option<seq<byte>>): seq<byte> {
    if v.None? then [] else v.value
  }

  function FromTuple(t: FromDeriver): PathInfo {
    PathInfo(Optional(t.0), t.1.0, t.1.1.0, t.1.1.1.0, t.1.1.1.1.0, t.1.1.1.1.1.0 == 1, t.1.1.1.1.1.1.0, Optional(t.1.1.1.1.1.1.1))
  }

  function ToTuple(i: PathInfo): FromDeriver {
    (OrEmpty(i.deriver), (i.hash, (i.references, (i.time, (i.size, (if i.ultimate then 1 else 0, (i.signatures,
            OrEmpty(i.contentAddress))))))))
  }

  /** What the client makes of a response. */
  ghost function DecodePathInfo(s: seq<byte>): Parsed<PathInfo> {
    match FromDeriverGrammar()(s)
    case Failed => Failed
    case Parsed(t, rest) => Parsed(FromTuple(t), rest)
  }

  /** The fields of `read_worker_path_info` from the registration time on. */
  method ReadFromTime(reader: Reader, budget: SessionBudget) returns (r: Result<FromTime>)
    requires budget.Valid() && SetBound(MAXIMUM_SIGNATURES, SIGNATURE_BYTES) + CONTENT_ADDRESS_BYTES + 7 <= Room(budget)
    modifies reader, budget
    ensures budget.Valid()
    ensures Conforms(old(reader.View()), FromTimeGrammar()(old(reader.View()).logical), r, reader.View())
  {
    RowStep(Number(AnyInt), FromSizeGrammar(), reader.View().logical);
    var time := ReadNumber(reader, AnyInt, 0);
    if time.Failure? { return Failure; }
    RowStep(Number(AnyInt), FromUltimateGrammar(), reader.View().logical);
    var size := ReadNumber(reader, AnyInt, 0);
    if size.Failure? { return Failure; }
    RowStep(Number(IsBoolean), FromSignaturesGrammar(), reader.View().logical);
    var ultimate := ReadNumber(reader, IsBoolean, 0);
    if ultimate.Failure? { return Failure; }
    RowStep(SignatureSet(), Str(CONTENT_ADDRESS_BYTES, AnyBytes), reader.View().logical);
    var signatures := ReadSet(reader, MAXIMUM_SIGNATURES, SIGNATURE_BYTES, AnyBytes, budget);
    if signatures.Failure? { return Failure; }
    var contentAddress := ReadShort(reader, CONTENT_ADDRESS_BYTES, AnyBytes, budget);
    if contentAddress.Failure? { return Failure; }
    return Success((time.value, (size.value, (ultimate.value, (signatures.value, contentAddress.value)))));
  }

  /** `read_worker_path_info`, part by part: its budget never refuses. */
  method ReadPathInfo(reader: Reader) returns (r: Result<PathInfo>)
    modifies reader
    ensures Conforms(old(reader.View()), DecodePathInfo(old(reader.View()).logical), r, reader.View())
  {
    var budget := new SessionBudget(BUDGET);
    RowStep(Str(MAXIMUM_PATH, OptionalPath), FromHashGrammar(), reader.View().logical);
    var deriver := ReadShort(reader, MAXIMUM_PATH, OptionalPath, budget);
    if deriver.Failure? { return Failure; }
    RowStep(Str(HASH_BYTES, LowerHash), FromReferencesGrammar(), reader.View().logical);
    var hash := ReadShort(reader, HASH_BYTES, LowerHash, budget);
    if hash.Failure? { return Failure; }
    RowStep(PathSet(), FromTimeGrammar(), reader.View().logical);
    var references := ReadSet(reader, MAXIMUM_PATHS, MAXIMUM_PATH, ValidPath, budget);
    if references.Failure? { return Failure; }
    var rest := ReadFromTime(reader, budget);
    if rest.Failure? { return Failure; }
    return Success(FromTuple((deriver.value, (hash.value, (references.value, rest.value)))));
  }

  function PlainReferences(): Grammar<Strings> { ListParser(StringParser(MAXIMUM_PATH), MAXIMUM_PATHS) }

  function PlainSignatures(): Grammar<Strings> { ListParser(StringParser(SIGNATURE_BYTES), MAXIMUM_SIGNATURES) }

  function ReferencesOk(): Strings -> bool { AcceptsAll(FitsItem(ValidPath, true)) }

  function SignaturesOk(): Strings -> bool { AcceptsAll(FitsItem(AnyBytes, true)) }

  function ReferencesFit(): Strings -> bool { ValidList(AtMostBytes(MAXIMUM_PATH), MAXIMUM_PATHS) }

  function SignaturesFit(): Strings -> bool { ValidList(AtMostBytes(SIGNATURE_BYTES), MAXIMUM_SIGNATURES) }

  function PlainInfo(): Grammar<FromDeriver> {
    Both(StringParser(MAXIMUM_PATH),
      Both(StringParser(HASH_BYTES),
      Both(PlainReferences(),
      Both(ParseInt,
      Both(ParseInt,
      Both(ParseInt,
      Both(PlainSignatures(),
      StringParser(CONTENT_ADDRESS_BYTES))))))))
  }

  function InfoEncoder(): FromDeriver -> seq<byte> {
    EncodeBoth(EncodeString,
      EncodeBoth(EncodeString,
      EncodeBoth(ListEncoder(EncodeString),
      EncodeBoth(EncodeInt,
      EncodeBoth(EncodeInt,
      EncodeBoth(EncodeInt,
      EncodeBoth(ListEncoder(EncodeString),
      EncodeString)))))))
  }

  function InfoLimits(): FromDeriver -> bool {
    ValidBoth(AtMostBytes(MAXIMUM_PATH),
      ValidBoth(AtMostBytes(HASH_BYTES),
      ValidBoth(ReferencesFit(),
      ValidBoth(AnyInt,
      ValidBoth(AnyInt,
      ValidBoth(AnyInt,
      ValidBoth(SignaturesFit(),
      AtMostBytes(CONTENT_ADDRESS_BYTES))))))))
  }

  function InfoOk(): FromDeriver -> bool {
    ValidBoth(OptionalPath,
      ValidBoth(LowerHash,
      ValidBoth(ReferencesOk(),
      ValidBoth(AnyInt,
      ValidBoth(AnyInt,
      ValidBoth(IsBoolean,
      ValidBoth(SignaturesOk(),
      AnyBytes)))))))
  }

  ghost function InfoLayout(): Grammar<FromDeriver> {
    Sealed(PlainInfo())
  }

  lemma InfoInverse()
    ensures Inverse(InfoLayout(), InfoEncoder(), InfoLimits())
  {
    Unsealed(PlainInfo());
    IntInverse();
    StringInverse(MAXIMUM_PATH);
    StringInverse(HASH_BYTES);
    StringInverse(SIGNATURE_BYTES);
    StringInverse(CONTENT_ADDRESS_BYTES);
    ListInverse(StringParser(MAXIMUM_PATH), EncodeString, AtMostBytes(MAXIMUM_PATH), MAXIMUM_PATHS);
    ListInverse(StringParser(SIGNATURE_BYTES), EncodeString, AtMostBytes(SIGNATURE_BYTES), MAXIMUM_SIGNATURES);
    BothInverse(PlainSignatures(), ListEncoder(EncodeString), SignaturesFit(), StringParser(CONTENT_ADDRESS_BYTES),
            EncodeString, AtMostBytes(CONTENT_ADDRESS_BYTES));
    var p6, e6, x6 := Both(PlainSignatures(), StringParser(CONTENT_ADDRESS_BYTES)), EncodeBoth(ListEncoder(EncodeString),
            EncodeString), ValidBoth(SignaturesFit(), AtMostBytes(CONTENT_ADDRESS_BYTES));
    BothInverse(ParseInt, EncodeInt, AnyInt, p6, e6, x6);
    var p5, e5, x5 := Both(ParseInt, p6), EncodeBoth(EncodeInt, e6), ValidBoth(AnyInt, x6);
    BothInverse(ParseInt, EncodeInt, AnyInt, p5, e5, x5);
    var p4, e4, x4 := Both(ParseInt, p5), EncodeBoth(EncodeInt, e5), ValidBoth(AnyInt, x5);
    BothInverse(ParseInt, EncodeInt, AnyInt, p4, e4, x4);
    var p3, e3, x3 := Both(ParseInt, p4), EncodeBoth(EncodeInt, e4), ValidBoth(AnyInt, x4);
    BothInverse(PlainReferences(), ListEncoder(EncodeString), ReferencesFit(), p3, e3, x3);
    var p2, e2, x2 := Both(PlainReferences(), p3), EncodeBoth(ListEncoder(EncodeString), e3), ValidBoth(ReferencesFit(), x3);
    BothInverse(StringParser(HASH_BYTES), EncodeString, AtMostBytes(HASH_BYTES), p2, e2, x2);
    var p1, e1, x1 := Both(StringParser(HASH_BYTES), p2), EncodeBoth(EncodeString, e2), ValidBoth(AtMostBytes(HASH_BYTES), x2);
    BothInverse(StringParser(MAXIMUM_PATH), EncodeString, AtMostBytes(MAXIMUM_PATH), p1, e1, x1);
  }

  lemma InfoChecks()
    ensures Checks(FromDeriverGrammar(), InfoLayout(), InfoOk())
  {
    Unsealed(PlainInfo());
    ChecksSealed(StringParser(MAXIMUM_PATH), OptionalPath);
    ChecksSealed(StringParser(HASH_BYTES), LowerHash);
    ChecksSealed(ParseInt, AnyInt);
    ChecksSealed(ParseInt, IsBoolean);
    ChecksSealed(StringParser(CONTENT_ADDRESS_BYTES), AnyBytes);
    ChecksStrings(MAXIMUM_PATHS, MAXIMUM_PATH, ValidPath, true);
    ChecksStrings(MAXIMUM_SIGNATURES, SIGNATURE_BYTES, AnyBytes, true);
    ChecksRow(SignatureSet(), PlainSignatures(), SignaturesOk(), Str(CONTENT_ADDRESS_BYTES, AnyBytes),
            StringParser(CONTENT_ADDRESS_BYTES), AnyBytes);
    var p6, x6 := Both(PlainSignatures(), StringParser(CONTENT_ADDRESS_BYTES)), ValidBoth(SignaturesOk(), AnyBytes);
    ChecksRow(Number(IsBoolean), ParseInt, IsBoolean, FromSignaturesGrammar(), p6, x6);
    var p5, x5 := Both(ParseInt, p6), ValidBoth(IsBoolean, x6);
    ChecksRow(Number(AnyInt), ParseInt, AnyInt, FromUltimateGrammar(), p5, x5);
    var p4, x4 := Both(ParseInt, p5), ValidBoth(AnyInt, x5);
    ChecksRow(Number(AnyInt), ParseInt, AnyInt, FromSizeGrammar(), p4, x4);
    var p3, x3 := Both(ParseInt, p4), ValidBoth(AnyInt, x4);
    ChecksRow(PathSet(), PlainReferences(), ReferencesOk(), FromTimeGrammar(), p3, x3);
    var p2, x2 := Both(PlainReferences(), p3), ValidBoth(ReferencesOk(), x3);
    ChecksRow(Str(HASH_BYTES, LowerHash), StringParser(HASH_BYTES), LowerHash, FromReferencesGrammar(), p2, x2);
    var p1, x1 := Both(StringParser(HASH_BYTES), p2), ValidBoth(LowerHash, x2);
    ChecksRow(Str(MAXIMUM_PATH, OptionalPath), StringParser(MAXIMUM_PATH), OptionalPath, FromHashGrammar(), p1, x1);
  }

  /** What must hold of a path's info for the client to read it back: a valid deriver if any,
      a lower-case hash, distinct valid references, distinct signatures, and a content
      address that is not empty if there is one, all within the limits. */
  ghost predicate Readable(i: PathInfo) {
    && (i.deriver.Some? ==> ValidPath(i.deriver.value))
    && LowerHash(i.hash)
    && |i.references| <= MAXIMUM_PATHS && Each(ValidPath, i.references) && Distinct(i.references)
    && |i.signatures| <= MAXIMUM_SIGNATURES && Each(AtMostBytes(SIGNATURE_BYTES), i.signatures) && Distinct(i.signatures)
    && (i.contentAddress.Some? ==> 0 < |i.contentAddress.value| <= CONTENT_ADDRESS_BYTES)
  }

  /** What the server checks before it writes. */
  ghost predicate Writable(i: PathInfo) {
    |i.hash| == HASH_BYTES && All(i.hash, IsHex) && Each(ValidPath, i.references)
  }

  /** `write_query_path_info_response` for a path that is known, after its leading 1. */
  function EncodePathInfo(i: PathInfo): seq<byte> {
    InfoEncoder()(ToTuple(i))
  }

  predicate IsHex(b: byte) { IsLowerHex(b) || 65 <= b <= 70 }

  /** The response is refused exactly for a hash that is not 64 hexadecimal digits or an
      invalid reference. */
  method WritePathInfo(out: seq<byte>, i: PathInfo) returns (r: Option<seq<byte>>)
    ensures r.Some? <==> SpelledWritable(i)
    ensures r.Some? ==> r.value == out + InfoBytes(i)
  {
    SpelledWritableIff(i);
    if |i.hash| != HASH_BYTES || !All(i.hash, IsHex) {
      return None;
    }
    for k := 0 to |i.references|
      invariant Each(ValidPath, i.references[..k])
    {
      if !ValidPath(i.references[k]) {
        return None;
      }
    }
    assert i.references[..|i.references|] == i.references;
    var bytes := WriteFields(out, i);
    return Some(bytes);
  }

  /** Field by field. */
  method WriteFields(out: seq<byte>, i: PathInfo) returns (bytes: seq<byte>)
    ensures bytes == out + InfoBytes(i)
  {
    var ultimate: u64 := if i.ultimate then 1 else 0;
    ghost var e7 := EncodeList(EncodeString, i.signatures) + EncodeString(OrEmpty(i.contentAddress));
    ghost var e6 := EncodeInt(ultimate) + e7;
    ghost var e5 := EncodeInt(i.size) + e6;
    ghost var e4 := EncodeInt(i.time) + e5;
    ghost var e3 := EncodeList(EncodeString, i.references) + e4;
    ghost var e2 := EncodeString(i.hash) + e3;
    bytes := out + EncodeString(OrEmpty(i.deriver));
    Assoc(out, EncodeString(OrEmpty(i.deriver)), e2);
    Assoc(bytes, EncodeString(i.hash), e3);
    bytes := bytes + EncodeString(i.hash);
    Assoc(bytes, EncodeList(EncodeString, i.references), e4);
    bytes := WriteList(bytes, EncodeString, i.references);
    Assoc(bytes, EncodeInt(i.time), e5);
    bytes := bytes + EncodeInt(i.time);
    Assoc(bytes, EncodeInt(i.size), e6);
    bytes := bytes + EncodeInt(i.size);
    Assoc(bytes, EncodeInt(ultimate), e7);
    bytes := bytes + EncodeInt(ultimate);
    Assoc(bytes, EncodeList(EncodeString, i.signatures), EncodeString(OrEmpty(i.contentAddress)));
    bytes := WriteList(bytes, EncodeString, i.signatures);
    bytes := bytes + EncodeString(OrEmpty(i.contentAddress));
  }

  lemma EncodePathInfoIs(i: PathInfo)
    ensures EncodePathInfo(i) ==
            EncodeString(OrEmpty(i.deriver)) + (EncodeString(i.hash) + (EncodeList(EncodeString, i.references) + (EncodeInt(i.time)
            + (EncodeInt(i.size) + (EncodeInt(if i.ultimate then 1 else 0) + (EncodeList(EncodeString, i.signatures)
            + EncodeString(OrEmpty(i.contentAddress))))))))
  {
  }

  lemma ReadableMeans(t: FromDeriver)
    ensures InfoLimits()(t) && InfoOk()(t) ==> Readable(FromTuple(t)) && ToTuple(FromTuple(t)) == t
  {
    AcceptsStrings(ValidPath, true, t.1.1.0);
    AcceptsStrings(AnyBytes, true, t.1.1.1.1.1.1.0);
  }

  lemma PathsFit(paths: Strings)
    requires |paths| <= MAXIMUM_PATHS && Each(ValidPath, paths)
    ensures ReferencesFit()(paths)
  {
    forall k | 0 <= k < |paths| ensures AtMostBytes(MAXIMUM_PATH)(paths[k]) {
      assert ValidPath(paths[k]);
    }
  }

  lemma ReadableFits(i: PathInfo)
    requires Readable(i)
    ensures InfoLimits()(ToTuple(i)) && FromTuple(ToTuple(i)) == i
  {
    PathsFit(i.references);
    assert SignaturesFit()(i.signatures);
  }

  lemma ReadableIsOk(i: PathInfo)
    requires Readable(i)
    ensures InfoOk()(ToTuple(i))
  {
    AcceptsStrings(ValidPath, true, i.references);
    AcceptsStrings(AnyBytes, true, i.signatures);
    assert Each(AnyBytes, i.signatures);
  }

  lemma InfoReadBack(t: FromDeriver, rest: seq<byte>)
    requires InfoLimits()(t)
    ensures FromDeriverGrammar()(InfoEncoder()(t) + rest) == if InfoOk()(t) then Parsed(t, rest) else Failed
  {
    InfoInverse();
    InfoChecks();
    ChecksInverse(FromDeriverGrammar(), InfoLayout(), InfoOk(), InfoEncoder(), InfoLimits(), t, rest);
  }

  lemma InfoReadIsOk(s: seq<byte>)
    requires FromDeriverGrammar()(s).Parsed?
    ensures InfoLimits()(FromDeriverGrammar()(s).value) && InfoOk()(FromDeriverGrammar()(s).value)
  {
    InfoInverse();
    InfoChecks();
    ChecksCanonical(FromDeriverGrammar(), InfoLayout(), InfoOk(), InfoEncoder(), InfoLimits(), s);
  }

  /** A response is read back as what was written exactly when it is readable. */
  lemma PathInfoReadBackIff(i: PathInfo, rest: seq<byte>)
    ensures DecodePathInfo(EncodePathInfo(i) + rest) == Parsed(i, rest) <==> Readable(i)
  {
    var s := EncodePathInfo(i) + rest;
    if Readable(i) {
      ReadableFits(i);
      ReadableIsOk(i);
      InfoReadBack(ToTuple(i), rest);
    }
    if DecodePathInfo(s) == Parsed(i, rest) {
      InfoReadIsOk(s);
      ReadableMeans(FromDeriverGrammar()(s).value);
    }
  }

  /** A hash in capital letters is written and not read back. */
  lemma CapitalHashIsNotReadBack(rest: seq<byte>)
    ensures var i := PathInfo(None, seq(HASH_BYTES, _ => 65), [], 0, 0, false, [], None);
            Writable(i) && DecodePathInfo(EncodePathInfo(i) + rest) != Parsed(i, rest)
  {
    var i := PathInfo(None, seq(HASH_BYTES, _ => 65), [], 0, 0, false, [], None);
    assert !IsLowerHex(i.hash[0]);
    PathInfoReadBackIff(i, rest);
  }


  // ----- the messages, spelled out -----

  ghost predicate SpelledPaths(paths: Strings) {
    && (forall i :: 0 <= i < |paths| ==> SpelledPath(paths[i]))
    && (forall i, j :: 0 <= i < j < |paths| ==> paths[i] != paths[j])
  }

  ghost predicate SpelledTargets(targets: Strings) {
    && (forall i :: 0 <= i < |targets| ==>
          SpelledPath(targets[i]) || exists path, names :: SpelledTarget(targets[i], path, names))
    && (forall i, j :: 0 <= i < j < |targets| ==> targets[i] != targets[j])
  }

  /** Within what the reader of a list looks at before it checks the items. */
  predicate InLimits(values: Strings, maximum: nat, limit: nat) {
    |values| <= maximum && forall i :: 0 <= i < |values| ==> |values[i]| <= limit
  }

  lemma SpelledPathsIff(paths: Strings)
    ensures StringsOk(paths, ValidPath, true) <==> SpelledPaths(paths)
  {
    forall i | 0 <= i < |paths| ensures ValidPath(paths[i]) <==> SpelledPath(paths[i]) {
      ValidPathIff(paths[i]);
    }
  }

  lemma SpelledTargetsIff(targets: Strings)
    ensures StringsOk(targets, ServerDerived, true) <==> SpelledTargets(targets)
  {
    forall i | 0 <= i < |targets|
      ensures ServerDerived(targets[i]) <==> SpelledPath(targets[i]) || exists path, names :: SpelledTarget(targets[i], path, names)
    {
      ServerDerivedIff(targets[i]);
    }
  }

  /** Nothing but a list in its limits that passes the checks and fits is read. */
  lemma StringsCanonical(s: seq<byte>, maximum: nat, limit: nat, valid: seq<byte> -> bool, distinct: bool, room: int)
    requires maximum <= MAX_U64 && limit <= MAX_U64 && DecodeStrings(s, maximum, limit, valid, distinct, room).Parsed?
    ensures var r := DecodeStrings(s, maximum, limit, valid, distinct, room);
            && InLimits(r.value, maximum, limit) && s == EncodeList(EncodeString, r.value) + r.rest
            && StringsOk(r.value, valid, distinct) && Sum(KeptSizes(r.value)) <= room
  {
    StringInverse(limit);
    ListCanonical(StringParser(limit), EncodeString, AtMostBytes(limit), s, maximum);
    var values := DecodeStrings(s, maximum, limit, valid, distinct, room).value;
    forall i | 0 <= i < |values| ensures |values[i]| <= limit {
      assert AtMostBytes(limit)(values[i]);
    }
    StringsCostIs(values);
  }

  /** A QueryValidPaths request is the paths and, from protocol 1.27 on, a flag: it is taken
      exactly when the paths are well formed and differ, they fit, and the flag is 0 or 1;
      a 1 asks for substitutes. */
  lemma ValidPathsArriveIff(paths: Strings, withFlag: bool, flag: u64, rest: seq<byte>, room: int)
    requires InLimits(paths, 65536, 222)
    ensures DecodeValidPaths(EncodeList(EncodeString, paths) + ((if withFlag then EncodeInt(flag) else []) + rest), withFlag, room) ==
            if SpelledPaths(paths) && Sum(KeptSizes(paths)) <= room && (withFlag ==> flag <= 1)
            then Parsed((paths, withFlag && flag == 1), rest) else Failed
  {
    var tail := (if withFlag then EncodeInt(flag) else []) + rest;
    assert Each(AtMostBytes(MAXIMUM_PATH), paths);
    StringsRoundTrip(paths, tail, MAXIMUM_PATHS, MAXIMUM_PATH, ValidPath, true, room);
    SpelledPathsIff(paths);
    StringsCostIs(paths);
    if withFlag {
      IntRoundTrip(flag, rest);
    } else {
      assert tail == rest;
    }
  }

  /** The flag on the wire, where there is one. */
  function FlagBytes(withFlag: bool, substitute: bool): seq<byte> {
    if !withFlag then [] else if substitute then EncodeInt(1) else EncodeInt(0)
  }

  lemma FlagRead(rest: seq<byte>)
    requires ParseInt(rest).Parsed? && ParseInt(rest).value <= 1
    ensures rest == FlagBytes(true, ParseInt(rest).value == 1) + ParseInt(rest).rest
  {
    IntCanonical(rest);
  }

  ghost predicate PathsSpell(s: seq<byte>, withFlag: bool, room: int, paths: Strings, substitute: bool, rest: seq<byte>) {
    && InLimits(paths, 65536, 222) && SpelledPaths(paths) && Sum(KeptSizes(paths)) <= room && (substitute ==> withFlag)
    && s == EncodeList(EncodeString, paths) + (FlagBytes(withFlag, substitute) + rest)
  }

  lemma ValidPathsHeard(s: seq<byte>, withFlag: bool, room: int)
    requires DecodeValidPaths(s, withFlag, room).Parsed?
    ensures var r := DecodeValidPaths(s, withFlag, room); PathsSpell(s, withFlag, room, r.value.0, r.value.1, r.rest)
  {
    var paths := DecodeStrings(s, MAXIMUM_PATHS, MAXIMUM_PATH, ValidPath, true, room);
    StringsCanonical(s, MAXIMUM_PATHS, MAXIMUM_PATH, ValidPath, true, room);
    SpelledPathsIff(paths.value);
    if withFlag {
      FlagRead(paths.rest);
    } else {
      assert [] + paths.rest == paths.rest;
    }
  }

  /** Whatever is on the stream, a request is read exactly when it is such bytes. */
  lemma ValidPathsReadIff(s: seq<byte>, withFlag: bool, room: int, paths: Strings, substitute: bool, rest: seq<byte>)
    ensures DecodeValidPaths(s, withFlag, room) == Parsed((paths, substitute), rest) <==>
            PathsSpell(s, withFlag, room, paths, substitute, rest)
  {
    if DecodeValidPaths(s, withFlag, room) == Parsed((paths, substitute), rest) {
      ValidPathsHeard(s, withFlag, room);
    }
    if PathsSpell(s, withFlag, room, paths, substitute, rest) {
      ValidPathsArriveIff(paths, withFlag, if substitute then 1 else 0, rest, room);
    }
  }

  /** A QueryMissing request is taken exactly when its targets are well formed and differ, and
      they fit. */
  lemma TargetsArriveIff(targets: Strings, rest: seq<byte>, room: int)
    requires InLimits(targets, 65536, 479)
    ensures DecodeTargets(EncodeList(EncodeString, targets) + rest, room) ==
            if SpelledTargets(targets) && Sum(KeptSizes(targets)) <= room then Parsed(targets, rest) else Failed
  {
    assert Each(AtMostBytes(MAXIMUM_DERIVED), targets);
    StringsRoundTrip(targets, rest, MAXIMUM_PATHS, MAXIMUM_DERIVED, ServerDerived, true, room);
    SpelledTargetsIff(targets);
    StringsCostIs(targets);
  }

  lemma TargetsReadIff(s: seq<byte>, room: int, targets: Strings, rest: seq<byte>)
    ensures DecodeTargets(s, room) == Parsed(targets, rest) <==>
            && InLimits(targets, 65536, 479) && SpelledTargets(targets) && Sum(KeptSizes(targets)) <= room
            && s == EncodeList(EncodeString, targets) + rest
  {
    if InLimits(targets, 65536, 479) {
      TargetsArriveIff(targets, rest, room);
    }
    if DecodeTargets(s, room) == Parsed(targets, rest) {
      StringsCanonical(s, MAXIMUM_PATHS, MAXIMUM_DERIVED, ServerDerived, true, room);
      SpelledTargetsIff(targets);
    }
  }

  lemma SetArrivesIff(s: Strings, rest: seq<byte>)
    requires InLimits(s, 65536, 222)
    ensures PathSet()(EncodeList(EncodeString, s) + rest) == if SpelledPaths(s) then Parsed(s, rest) else Failed
  {
    var input := EncodeList(EncodeString, s) + rest;
    assert AllValid(AtMostBytes(MAXIMUM_PATH), s);
    StringInverse(MAXIMUM_PATH);
    ListRoundTrip(StringParser(MAXIMUM_PATH), EncodeString, AtMostBytes(MAXIMUM_PATH), s, MAXIMUM_PATHS, rest);
    ChecksStrings(MAXIMUM_PATHS, MAXIMUM_PATH, ValidPath, true);
    assert PathSet()(input) ==
           Guarded(ListParser(StringParser(MAXIMUM_PATH), MAXIMUM_PATHS), AcceptsAll(FitsItem(ValidPath, true)))(input);
    AcceptsStrings(ValidPath, true, s);
    SpelledPathsIff(s);
  }

  /** The sizes behind the sets of a QueryMissing response. */
  lemma SizesArrive(download: u64, nar: u64, rest: seq<byte>)
    ensures SizesGrammar()(EncodeInt(download) + (EncodeInt(nar) + rest)) == Parsed((download, nar), rest)
  {
    NumberReadBack(download, EncodeInt(nar) + rest);
    NumberReadBack(nar, rest);
    RowStep(Number(AnyInt), Number(AnyInt), EncodeInt(download) + (EncodeInt(nar) + rest));
  }

  /** A QueryMissing response is the paths to build, to substitute and unknown, the download
      size and the NAR size: the client takes it exactly when each set's paths are well formed
      and differ. */
  lemma MissingArrivesIff(build: Strings, substitute: Strings, unknown: Strings, download: u64, nar: u64, rest: seq<byte>)
    requires InLimits(build, 65536, 222) && InLimits(substitute, 65536, 222) && InLimits(unknown, 65536, 222)
    ensures MissingGrammar()(EncodeList(EncodeString, build) + (EncodeList(EncodeString, substitute) +
            (EncodeList(EncodeString, unknown) + (EncodeInt(download) + (EncodeInt(nar) + rest))))) ==
            if SpelledPaths(build) && SpelledPaths(substitute) && SpelledPaths(unknown)
            then Parsed((build, (substitute, (unknown, (download, nar)))), rest) else Failed
  {
    var s4 := EncodeInt(download) + (EncodeInt(nar) + rest);
    var s3 := EncodeList(EncodeString, unknown) + s4;
    var s2 := EncodeList(EncodeString, substitute) + s3;
    SizesArrive(download, nar, rest);
    SetArrivesIff(build, s2);
    SetArrivesIff(substitute, s3);
    SetArrivesIff(unknown, s4);
    RowStep(PathSet(), SizesGrammar(), s3);
    RowStep(PathSet(), FromUnknownGrammar(), s2);
    RowStep(PathSet(), FromSubstituteGrammar(), EncodeList(EncodeString, build) + s2);
  }

  lemma SetHeard(s: seq<byte>)
    requires PathSet()(s).Parsed?
    ensures var r := PathSet()(s); InLimits(r.value, 65536, 222) && SpelledPaths(r.value) && s == EncodeList(EncodeString, r.value) + r.rest
  {
    ChecksStrings(MAXIMUM_PATHS, MAXIMUM_PATH, ValidPath, true);
    var p, ok := ListParser(StringParser(MAXIMUM_PATH), MAXIMUM_PATHS), AcceptsAll(FitsItem(ValidPath, true));
    assert PathSet()(s) == Guarded(p, ok)(s);
    StringInverse(MAXIMUM_PATH);
    ListCanonical(StringParser(MAXIMUM_PATH), EncodeString, AtMostBytes(MAXIMUM_PATH), s, MAXIMUM_PATHS);
    var values := p(s).value;
    forall i | 0 <= i < |values| ensures |values[i]| <= 222 {
      assert AtMostBytes(MAXIMUM_PATH)(values[i]);
    }
    AcceptsStrings(ValidPath, true, values);
    SpelledPathsIff(values);
  }

  lemma SizesHeard(s: seq<byte>)
    requires SizesGrammar()(s).Parsed?
    ensures var r := SizesGrammar()(s); s == EncodeInt(r.value.0) + (EncodeInt(r.value.1) + r.rest)
  {
    RowStep(Number(AnyInt), Number(AnyInt), s);
    Unsealed(Guarded(ParseInt, AnyInt));
    IntCanonical(s);
    IntCanonical(ParseInt(s).rest);
  }

  /** Whatever is on the stream, a response is read exactly when it is such bytes. */
  lemma MissingReadIff(s: seq<byte>, build: Strings, substitute: Strings, unknown: Strings, download: u64, nar: u64, rest: seq<byte>)
    ensures MissingGrammar()(s) == Parsed((build, (substitute, (unknown, (download, nar)))), rest) <==>
            && InLimits(build, 65536, 222) && InLimits(substitute, 65536, 222) && InLimits(unknown, 65536, 222)
            && SpelledPaths(build) && SpelledPaths(substitute) && SpelledPaths(unknown)
            && s == EncodeList(EncodeString, build) + (EncodeList(EncodeString, substitute) +
                    (EncodeList(EncodeString, unknown) + (EncodeInt(download) + (EncodeInt(nar) + rest))))
  {
    if InLimits(build, 65536, 222) && InLimits(substitute, 65536, 222) && InLimits(unknown, 65536, 222) {
      MissingArrivesIff(build, substitute, unknown, download, nar, rest);
    }
    if MissingGrammar()(s) == Parsed((build, (substitute, (unknown, (download, nar)))), rest) {
      RowStep(PathSet(), FromSubstituteGrammar(), s);
      SetHeard(s);
      var s2 := PathSet()(s).rest;
      RowStep(PathSet(), FromUnknownGrammar(), s2);
      SetHeard(s2);
      var s3 := PathSet()(s2).rest;
      RowStep(PathSet(), SizesGrammar(), s3);
      SetHeard(s3);
      SizesHeard(PathSet()(s3).rest);
    }
  }

  /** What the client demands of a path's info: 64 lower-case digits, at most 65536 references
      and 256 signatures of 4096 bytes, none of them twice. */
  ghost predicate SpelledInfo(i: PathInfo) {
    && (i.deriver.Some? ==> SpelledPath(i.deriver.value))
    && |i.hash| == 64 && (forall k :: 0 <= k < 64 ==> (i.hash[k] as char) in "0123456789abcdef")
    && |i.references| <= 65536 && SpelledPaths(i.references)
    && InLimits(i.signatures, 256, 4096) && (forall j, k :: 0 <= j < k < |i.signatures| ==> i.signatures[j] != i.signatures[k])
    && (i.contentAddress.Some? ==> 0 < |i.contentAddress.value| <= 4096)
  }

  lemma SpelledInfoIff(i: PathInfo)
    ensures Readable(i) <==> SpelledInfo(i)
  {
    if i.deriver.Some? { ValidPathIff(i.deriver.value); }
    DigitsIff(i.hash);
    SpelledPathsIff(i.references);
  }

  /** A string that may be missing, which is then empty. */
  function Field(v: Option<seq<byte>>): seq<byte> {
    match v
    case None => EncodeString([])
    case Some(value) => EncodeString(value)
  }

  /** The response: deriver, hash, references, registration time, NAR size, whether the path was
      built here, signatures and content address. */
  function InfoBytes(i: PathInfo): seq<byte> {
    Field(i.deriver) + (EncodeString(i.hash) + (EncodeList(EncodeString, i.references) + (EncodeInt(i.time) + (EncodeInt(i.size)
    + (EncodeInt(if i.ultimate then 1 else 0) + (EncodeList(EncodeString, i.signatures) + Field(i.contentAddress)))))))
  }

  lemma InfoBytesAre(i: PathInfo)
    ensures EncodePathInfo(i) == InfoBytes(i)
  {
    EncodePathInfoIs(i);
  }

  /** Whatever is on the stream, an info is read exactly when it is its bytes and meets these
      demands. */
  lemma InfoReadIff(s: seq<byte>, i: PathInfo, rest: seq<byte>)
    ensures DecodePathInfo(s) == Parsed(i, rest) <==> s == InfoBytes(i) + rest && SpelledInfo(i)
  {
    if s == InfoBytes(i) + rest {
      InfoArrivesIff(i, rest);
    }
    if DecodePathInfo(s) == Parsed(i, rest) {
      InfoHeard(s);
      InfoArrivesIff(i, rest);
    }
  }

  lemma InfoHeard(s: seq<byte>)
    requires FromDeriverGrammar()(s).Parsed?
    ensures var r := FromDeriverGrammar()(s); s == InfoBytes(FromTuple(r.value)) + r.rest
  {
    InfoInverse();
    InfoChecks();
    ChecksCanonical(FromDeriverGrammar(), InfoLayout(), InfoOk(), InfoEncoder(), InfoLimits(), s);
    var t := FromDeriverGrammar()(s).value;
    ReadableMeans(t);
    InfoBytesAre(FromTuple(t));
  }

  lemma InfoArrivesIff(i: PathInfo, rest: seq<byte>)
    ensures DecodePathInfo(InfoBytes(i) + rest) == Parsed(i, rest) <==> SpelledInfo(i)
  {
    InfoBytesAre(i);
    SpelledInfoIff(i);
    PathInfoReadBackIff(i, rest);
  }

  /** What the server demands of it: 64 digits of either case and well-formed references. */
  ghost predicate SpelledWritable(i: PathInfo) {
    && |i.hash| == 64 && (forall k :: 0 <= k < 64 ==> (i.hash[k] as char) in "0123456789abcdefABCDEF")
    && forall k :: 0 <= k < |i.references| ==> SpelledPath(i.references[k])
  }

  lemma HexOfEitherCase(b: byte)
    ensures IsHex(b) <==> (b as char) in "0123456789abcdefABCDEF"
  {
    HexAlphabet(b);
    if IsHex(b) && !IsLowerHex(b) { assert (b as char) in "ABCDEF"; }
  }

  lemma SpelledWritableIff(i: PathInfo)
    ensures Writable(i) <==> SpelledWritable(i)
  {
    forall k | 0 <= k < |i.hash| ensures IsHex(i.hash[k]) <==> (i.hash[k] as char) in "0123456789abcdefABCDEF" {
      HexOfEitherCase(i.hash[k]);
    }
    forall k | 0 <= k < |i.references| ensures ValidPath(i.references[k]) <==> SpelledPath(i.references[k]) {
      ValidPathIff(i.references[k]);
    }
  }
}
