/** AddMultipleToStore: objects with their metadata and NAR bodies, decoded from a framed
    stream one at a time. */
module AddMultiple {
  import opened Basics
  import opened Bytes
  import opened Wire
  import opened Codec
  import opened Budget
  import opened Streams
  import opened Metered
  import opened Checked
  import opened StorePaths

  const MAXIMUM_OBJECTS := 65536
  const MAXIMUM_REFERENCES := 65536
  const MAXIMUM_SIGNATURES := 256
  const HASH_BYTES := 64
  const SIGNATURE_BYTES := 4096
  const CONTENT_ADDRESS_BYTES := 4096

  ghost function ReferencesGrammar(): Grammar<Strings> {
    StringsGrammar(MAXIMUM_REFERENCES, MAXIMUM_PATH, ValidPath, false)
  }

  ghost function SignaturesGrammar(): Grammar<Strings> {
    StringsGrammar(MAXIMUM_SIGNATURES, SIGNATURE_BYTES, AnyBytes, false)
  }

  // ----- metadata -----

  // Path, deriver, NAR hash, references, registration time, NAR size, ultimate, signatures
  // and content address; an empty deriver or content address stands for none.
  type FromSignatures = (Strings, seq<byte>)
  type FromUltimate = (u64, FromSignatures)
  type FromSize = (u64, FromUltimate)
  type FromTime = (u64, FromSize)
  type FromReferences = (Strings, FromTime)
  type FromHash = (seq<byte>, FromReferences)
  type FromDeriver = (seq<byte>, FromHash)
  type FromPath = (seq<byte>, FromDeriver)

  type Info = FromPath

  function StorePath(i: Info): seq<byte> { i.0 }

  function Deriver(i: Info): seq<byte> { i.1.0 }

  function NarHash(i: Info): seq<byte> { i.1.1.0 }

  function References(i: Info): Strings { i.1.1.1.0 }

  function NarSize(i: Info): u64 { i.1.1.1.1.1.0 }

  function Ultimate(i: Info): u64 { i.1.1.1.1.1.1.0 }

  function Signatures(i: Info): Strings { i.1.1.1.1.1.1.1.0 }

  function ContentAddress(i: Info): seq<byte> { i.1.1.1.1.1.1.1.1 }

  ghost function FromSignaturesGrammar(): Grammar<FromSignatures> { Row(SignaturesGrammar(), AnyString(CONTENT_ADDRESS_BYTES)) }

  ghost function FromUltimateGrammar(): Grammar<FromUltimate> { Row(Number(IsBoolean), FromSignaturesGrammar()) }

  ghost function FromSizeGrammar(): Grammar<FromSize> { Row(Number(AnyInt), FromUltimateGrammar()) }

  ghost function FromTimeGrammar(): Grammar<FromTime> { Row(Number(AnyInt), FromSizeGrammar()) }

  ghost function FromReferencesGrammar(): Grammar<FromReferences> { Row(ReferencesGrammar(), FromTimeGrammar()) }

  ghost function FromHashGrammar(): Grammar<FromHash> { Row(AnyString(HASH_BYTES), FromReferencesGrammar()) }

  ghost function FromDeriverGrammar(): Grammar<FromDeriver> { Row(Str(MAXIMUM_PATH, OptionalPath), FromHashGrammar()) }

  ghost function FromPathGrammar(): Grammar<FromPath> { Row(Str(MAXIMUM_PATH, ValidPath), FromDeriverGrammar()) }

  ghost function FromSignaturesWeight(): FromSignatures -> nat { RowCost(StringsWeight(), StringWeight()) }

  ghost function FromUltimateWeight(): FromUltimate -> nat { RowCost(Free(), FromSignaturesWeight()) }

  ghost function FromSizeWeight(): FromSize -> nat { RowCost(Free(), FromUltimateWeight()) }

  ghost function FromTimeWeight(): FromTime -> nat { RowCost(Free(), FromSizeWeight()) }

  ghost function FromReferencesWeight(): FromReferences -> nat { RowCost(StringsWeight(), FromTimeWeight()) }

  ghost function FromHashWeight(): FromHash -> nat { RowCost(StringWeight(), FromReferencesWeight()) }

  ghost function FromDeriverWeight(): FromDeriver -> nat { RowCost(StringWeight(), FromHashWeight()) }

  ghost function FromPathWeight(): FromPath -> nat { RowCost(StringWeight(), FromDeriverWeight()) }

  /** The fields of `read_add_multiple_path_info` from the registration time on. */
  method ReadFromTime(reader: Reader, budget: SessionBudget) returns (r: Result<FromTime>)
    requires budget.Valid()
    modifies reader, budget
    ensures budget.Valid()
    ensures MetersOpen(FromTimeGrammar(), FromTimeWeight(), old(reader.View()), old(Room(budget)), r, reader.View(),
            old(Room(budget)) - Room(budget))
  {
    RowWeighs(Number(AnyInt), Free(), FromSizeGrammar(), FromSizeWeight(), reader.View().logical, Room(budget));
    var time := ReadNumber(reader, AnyInt, Room(budget));
    if time.Failure? { return Failure; }
    RowWeighs(Number(AnyInt), Free(), FromUltimateGrammar(), FromUltimateWeight(), reader.View().logical, Room(budget));
    var size := ReadNumber(reader, AnyInt, Room(budget));
    if size.Failure? { return Failure; }
    RowWeighs(Number(IsBoolean), Free(), FromSignaturesGrammar(), FromSignaturesWeight(), reader.View().logical, Room(budget));
    var ultimate := ReadNumber(reader, IsBoolean, Room(budget));
    if ultimate.Failure? { return Failure; }
    RowWeighs(SignaturesGrammar(), StringsWeight(), AnyString(CONTENT_ADDRESS_BYTES), StringWeight(), reader.View().logical,
            Room(budget));
    var signatures := ReadStrings(reader, MAXIMUM_SIGNATURES, SIGNATURE_BYTES, AnyBytes, false, budget);
    if signatures.Failure? { return Failure; }
    var contentAddress := ReadString(reader, CONTENT_ADDRESS_BYTES, budget);
    if contentAddress.Failure? { return Failure; }
    TimeWeighs(time.value, size.value, ultimate.value, signatures.value, contentAddress.value);
    return Success((time.value, (size.value, (ultimate.value, (signatures.value, contentAddress.value)))));
  }

  lemma TimeWeighs(time: u64, size: u64, ultimate: u64, signatures: Strings, contentAddress: seq<byte>)
    ensures FromTimeWeight()((time, (size, (ultimate, (signatures, contentAddress))))) ==
            StringsWeight()(signatures) + StringWeight()(contentAddress)
  {
    RowCosts(Free(), FromSizeWeight(), time, (size, (ultimate, (signatures, contentAddress))));
    RowCosts(Free(), FromUltimateWeight(), size, (ultimate, (signatures, contentAddress)));
    RowCosts(Free(), FromSignaturesWeight(), ultimate, (signatures, contentAddress));
    RowCosts(StringsWeight(), StringWeight(), signatures, contentAddress);
  }

  /** Its NAR hash and references, and those. */
  method ReadFromHash(reader: Reader, budget: SessionBudget) returns (r: Result<FromHash>)
    requires budget.Valid()
    modifies reader, budget
    ensures budget.Valid()
    ensures MetersOpen(FromHashGrammar(), FromHashWeight(), old(reader.View()), old(Room(budget)), r, reader.View(),
            old(Room(budget)) - Room(budget))
  {
    RowWeighs(AnyString(HASH_BYTES), StringWeight(), FromReferencesGrammar(), FromReferencesWeight(), reader.View().logical,
            Room(budget));
    var hash := ReadString(reader, HASH_BYTES, budget);
    if hash.Failure? { return Failure; }
    RowWeighs(ReferencesGrammar(), StringsWeight(), FromTimeGrammar(), FromTimeWeight(), reader.View().logical, Room(budget));
    var references := ReadStrings(reader, MAXIMUM_REFERENCES, MAXIMUM_PATH, ValidPath, false, budget);
    if references.Failure? { return Failure; }
    var rest := ReadFromTime(reader, budget);
    if rest.Failure? { return Failure; }
    RowCosts(StringWeight(), FromReferencesWeight(), hash.value, (references.value, rest.value));
    RowCosts(StringsWeight(), FromTimeWeight(), references.value, rest.value);
    return Success((hash.value, (references.value, rest.value)));
  }

  /** `read_add_multiple_path_info`, part by part. */
  method ReadParts(reader: Reader, budget: SessionBudget) returns (r: Result<FromPath>)
    requires budget.Valid()
    modifies reader, budget
    ensures budget.Valid()
    ensures MetersOpen(FromPathGrammar(), FromPathWeight(), old(reader.View()), old(Room(budget)), r, reader.View(),
            old(Room(budget)) - Room(budget))
  {
    RowWeighs(Str(MAXIMUM_PATH, ValidPath), StringWeight(), FromDeriverGrammar(), FromDeriverWeight(), reader.View().logical,
            Room(budget));
    var path := ReadChecked(reader, MAXIMUM_PATH, ValidPath, budget);
    if path.Failure? { return Failure; }
    RowWeighs(Str(MAXIMUM_PATH, OptionalPath), StringWeight(), FromHashGrammar(), FromHashWeight(), reader.View().logical,
            Room(budget));
    var deriver := ReadChecked(reader, MAXIMUM_PATH, OptionalPath, budget);
    if deriver.Failure? { return Failure; }
    var rest := ReadFromHash(reader, budget);
    if rest.Failure? { return Failure; }
    RowCosts(StringWeight(), FromDeriverWeight(), path.value, (deriver.value, rest.value));
    RowCosts(StringWeight(), FromHashWeight(), deriver.value, rest.value);
    return Success((path.value, (deriver.value, rest.value)));
  }

  /** A failure gives back what was charged. */
  method ReadFromPath(reader: Reader, budget: SessionBudget) returns (r: Result<FromPath>)
    requires budget.Valid()
    modifies reader, budget
    ensures budget.Valid() && Kept(r, budget.retained - old(budget.retained))
    ensures Meters(FromPathGrammar(), FromPathWeight(), old(reader.View()), old(Room(budget)), r, reader.View(),
            old(Room(budget)) - Room(budget))
  {
    var start := budget.retained;
    r := ReadParts(reader, budget);
    if r.Failure? {
      budget.Release(budget.retained - start);
    }
  }

  // ----- objects -----

  /** Metadata and NAR. */
  type Object = (Info, seq<byte>)

  /** Whether the receiver takes an object, after those it has taken before. */
  type Receiver = (Object, seq<Object>) -> bool

  /** An object whose metadata fits the budget on its own, followed by its NAR, both of which
      the receiver takes. */
  ghost function ParseObject(s: seq<byte>, room: int, accepts: Receiver, before: seq<Object>): Parsed<Object> {
    WithBody(Weighed(FromPathGrammar()(s), FromPathWeight(), room), NarSize, Against(accepts, before))
  }

  /** What follows a head: a body of the size it announces, both of which must be `ok`. */
  function WithBody<I>(head: Parsed<I>, size: I -> u64, ok: ((I, seq<byte>)) -> bool): Parsed<(I, seq<byte>)> {
    match head
    case Failed => Failed
    case Parsed(i, rest) =>
      match TakeExact(rest, size(i))
      case Failed => Failed
      case Parsed(body, rest') => if ok((i, body)) then Parsed((i, body), rest') else Failed
  }

  lemma BodyRead<I>(head: Parsed<I>, valid: bool, cost: I -> nat, room: int, size: I -> u64, ok: ((I, seq<byte>)) -> bool,
                    i: I, body: seq<byte>, rest: seq<byte>)
    requires |body| == size(i) && head == if valid then Parsed(i, body + rest) else Failed
    ensures WithBody(Weighed(head, cost, room), size, ok) ==
            if valid && cost(i) <= room && ok((i, body)) then Parsed((i, body), rest) else Failed
  {
    assert (body + rest)[..|body|] == body && (body + rest)[|body|..] == rest;
  }

  lemma BodyCanonical<I>(head: Parsed<I>, size: I -> u64, ok: ((I, seq<byte>)) -> bool)
    requires WithBody(head, size, ok).Parsed?
    ensures var r := WithBody(head, size, ok);
            && head.Parsed? && r.value.0 == head.value && |r.value.1| == size(head.value) && ok(r.value)
            && head.rest == r.value.1 + r.rest
  {
  }

  ghost function ObjectParser(room: int, accepts: Receiver, before: seq<Object>): Grammar<Object> {
    Sealed((s: seq<byte>) => ParseObject(s, room, accepts, before))
  }

  ghost function ObjectItem(room: int, accepts: Receiver): seq<Object> -> Grammar<Object> {
    (before: seq<Object>) => ObjectParser(room, accepts, before)
  }

  /** Metadata is charged while its object is received and dropped before the next. */
  method ReadObject(reader: Reader, budget: SessionBudget, accepts: Receiver, before: seq<Object>) returns (r: Result<Object>)
    requires budget.Valid()
    modifies reader, budget
    ensures budget.Valid() && budget.retained == old(budget.retained)
    ensures Conforms(old(reader.View()), ObjectParser(old(Room(budget)), accepts, before)(old(reader.View()).logical), r,
            reader.View())
  {
    ghost var room := Room(budget);
    Unsealed((s: seq<byte>) => ParseObject(s, room, accepts, before));
    var start := budget.retained;
    var info := ReadFromPath(reader, budget);
    if info.Failure? {
      return Failure;
    }
    assert budget.retained - start == FromPathWeight()(info.value);
    var nar := reader.ReadExact(NarSize(info.value));
    budget.Release(budget.retained - start);
    if nar.Failure? || !accepts((info.value, nar.value), before) {
      return Failure;
    }
    return Success((info.value, nar.value));
  }

  /** What a framed stream holds: a count, that many objects, and nothing more. */
  ghost function DecodeObjects(v: View, room: int, accepts: Receiver): Option<seq<Object>> {
    match ParseInt(v.logical)
    case Failed => None
    case Parsed(count, rest) =>
      if count > MAXIMUM_OBJECTS then None
      else Whole(ParseMore(ObjectItem(room, accepts), count, [], rest), v.end)
  }

  /** What was parsed, if nothing is left and the stream ended. */
  function Whole(parsed: Parsed<seq<Object>>, end: Option<seq<byte>>): Option<seq<Object>> {
    match parsed
    case Failed => None
    case Parsed(objects, rest) => if rest == [] && end.Some? then Some(objects) else None
  }

  method ReadObjects(reader: Reader, budget: SessionBudget, accepts: Receiver, count: nat) returns (r: Result<seq<Object>>)
    requires budget.Valid()
    modifies reader, budget
    ensures budget.Valid() && budget.retained == old(budget.retained)
    ensures Conforms(old(reader.View()), ParseMore(ObjectItem(old(Room(budget)), accepts), count, [], old(reader.View()).logical),
            r, reader.View())
  {
    ghost var start, item := reader.View(), ObjectItem(Room(budget), accepts);
    var objects: seq<Object> := [];
    var left := count;
    OntoNothing(ParseMore(item, count, [], start.logical));
    while left > 0
      invariant budget.Valid() && budget.retained == old(budget.retained) && reader.View().end == start.end
      invariant Lifted(Onto(objects), ParseMore(item, left, objects, reader.View().logical)) ==
                ParseMore(item, count, [], start.logical)
    {
      ghost var now := reader.View().logical;
      MoreAfter(item, left, objects, now);
      assert item(objects) == ObjectParser(Room(budget), accepts, objects);
      var object_ := ReadObject(reader, budget, accepts, objects);
      if object_.Failure? {
        return Failure;
      }
      objects, left := objects + [object_.value], left - 1;
    }
    assert objects + [] == objects;
    return Success(objects);
  }

  lemma OntoNothing<T>(r: Parsed<seq<T>>)
    ensures Lifted(Onto([]), r) == r
  {
    if r.Parsed? {
      assert [] + r.value == r.value;
    }
  }

  /** What is to come after `values` and the next item, put behind both. */
  lemma MoreAfter<T>(item: seq<T> -> Grammar<T>, n: nat, values: seq<T>, s: seq<byte>)
    requires n > 0
    ensures Lifted(Onto(values), ParseMore(item, n, values, s)) ==
            if item(values)(s).Failed? then Failed
            else
              var next := values + [item(values)(s).value];
              Lifted(Onto(next), ParseMore(item, n - 1, next, item(values)(s).rest))
  {
    if item(values)(s).Parsed? {
      var v, rest := item(values)(s).value, item(values)(s).rest;
      var more := ParseMore(item, n - 1, values + [v], rest);
      if more.Parsed? {
        Assoc(values, [v], more.value);
      }
    }
  }

  /** The framed part of the request.  Success leaves the input right after the zero frame. */
  method ReadFramedObjects(reader: Reader, budget: SessionBudget, accepts: Receiver) returns (r: Option<seq<Object>>)
    requires budget.Valid() && reader.framed
    modifies reader, budget
    ensures budget.Valid() && budget.retained == old(budget.retained)
    ensures r == DecodeObjects(old(reader.View()), old(Room(budget)), accepts)
    ensures r.Some? ==> Some(reader.input) == old(reader.View()).end
  {
    var count := reader.ReadInteger();
    if count.Failure? || count.value > MAXIMUM_OBJECTS {
      return None;
    }
    var objects := ReadObjects(reader, budget, accepts, count.value);
    if objects.Failure? {
      return None;
    }
    var trailing := reader.Read(1);
    if trailing != Success([]) {
      return None;
    }
    return Some(objects.value);
  }

  datatype Request = Request(dontCheckSignatures: bool, objects: seq<Object>)

  /** The flags before the frames: two booleans, of which the first must be false. */
  function ParseFlags(s: seq<byte>): Parsed<bool> {
    match ParseInt(s)
    case Failed => Failed
    case Parsed(repair, rest) =>
      if repair > 1 then Failed
      else
        match ParseInt(rest)
        case Failed => Failed
        case Parsed(dontCheck, rest') => if dontCheck > 1 || repair == 1 then Failed else Parsed(dontCheck == 1, rest')
  }

  /** `complete_add_multiple_to_store`, from protocol 1.32. */
  method ReadAddMultiple(reader: Reader, budget: SessionBudget, accepts: Receiver) returns (r: Option<Request>)
    requires budget.Valid() && !reader.framed
    modifies reader, budget
    ensures budget.Valid() && budget.retained == old(budget.retained)
    ensures match ParseFlags(old(reader.input))
            case Failed => r == None
            case Parsed(flag, frames) =>
              var v := Unframe(0, false, frames);
              match DecodeObjects(v, old(Room(budget)), accepts)
              case None => r == None
              case Some(objects) => r == Some(Request(flag, objects)) && Some(reader.input) == v.end
  {
    var repair := reader.ReadInteger();
    if repair.Failure? || repair.value > 1 {
      return None;
    }
    var dontCheck := reader.ReadInteger();
    if dontCheck.Failure? || dontCheck.value > 1 || repair.value == 1 {
      return None;
    }
    var framed := new Reader.Framed(reader.input);
    var objects := ReadFramedObjects(framed, budget, accepts);
    reader.input := framed.input;
    if objects.None? {
      return None;
    }
    return Some(Request(dontCheck.value == 1, objects.value));
  }

  // ----- frames do not matter -----

  /** What a decoder is given depends on the logical bytes only, not on how they are cut into
      frames, and what follows the zero frame is left alone. */
  lemma FramingIrrelevant(a: seq<seq<byte>>, b: seq<seq<byte>>, after: seq<byte>)
    requires FrameSizes(a) && FrameSizes(b) && Concat(a) == Concat(b)
    ensures var v, w := Unframe(0, false, EncodeFrames(a) + after), Unframe(0, false, EncodeFrames(b) + after);
            v == w && v.end == Some(after)
  {
    UnframeInvertsFrames(a, after);
    UnframeInvertsFrames(b, after);
  }

  /** An accepted stream is the framing of its logical bytes, up to what follows it. */
  lemma AcceptedIsFramed(frames: seq<byte>, room: int, accepts: Receiver) returns (chunks: seq<seq<byte>>)
    requires DecodeObjects(Unframe(0, false, frames), room, accepts).Some?
    ensures FrameSizes(chunks)
    ensures var v := Unframe(0, false, frames);
            v.end.Some? && frames == EncodeFrames(chunks) + v.end.value && Concat(chunks) == v.logical
  {
    chunks := EndedIsFramed(frames);
  }

  // ----- written objects -----

  function PlainReferences(): Grammar<Strings> { ListParser(StringParser(MAXIMUM_PATH), MAXIMUM_REFERENCES) }

  function PlainSignatures(): Grammar<Strings> { ListParser(StringParser(SIGNATURE_BYTES), MAXIMUM_SIGNATURES) }

  function ReferencesOk(): Strings -> bool { AcceptsAll(FitsItem(ValidPath, false)) }

  function SignaturesOk(): Strings -> bool { AcceptsAll(FitsItem(AnyBytes, false)) }

  function ReferencesFit(): Strings -> bool { ValidList(AtMostBytes(MAXIMUM_PATH), MAXIMUM_REFERENCES) }

  function SignaturesFit(): Strings -> bool { ValidList(AtMostBytes(SIGNATURE_BYTES), MAXIMUM_SIGNATURES) }

  function PlainInfo(): Grammar<Info> {
    Both(StringParser(MAXIMUM_PATH),
      Both(StringParser(MAXIMUM_PATH),
      Both(StringParser(HASH_BYTES),
      Both(PlainReferences(),
      Both(ParseInt,
      Both(ParseInt,
      Both(ParseInt,
      Both(PlainSignatures(),
      StringParser(CONTENT_ADDRESS_BYTES)))))))))
  }

  function InfoEncoder(): Info -> seq<byte> {
    EncodeBoth(EncodeString,
      EncodeBoth(EncodeString,
      EncodeBoth(EncodeString,
      EncodeBoth(ListEncoder(EncodeString),
      EncodeBoth(EncodeInt,
      EncodeBoth(EncodeInt,
      EncodeBoth(EncodeInt,
      EncodeBoth(ListEncoder(EncodeString),
      EncodeString))))))))
  }

  function InfoLimits(): Info -> bool {
    ValidBoth(AtMostBytes(MAXIMUM_PATH),
      ValidBoth(AtMostBytes(MAXIMUM_PATH),
      ValidBoth(AtMostBytes(HASH_BYTES),
      ValidBoth(ReferencesFit(),
      ValidBoth(AnyInt,
      ValidBoth(AnyInt,
      ValidBoth(AnyInt,
      ValidBoth(SignaturesFit(),
      AtMostBytes(CONTENT_ADDRESS_BYTES)))))))))
  }

  function InfoOk(): Info -> bool {
    ValidBoth(ValidPath,
      ValidBoth(OptionalPath,
      ValidBoth(Anything(),
      ValidBoth(ReferencesOk(),
      ValidBoth(AnyInt,
      ValidBoth(AnyInt,
      ValidBoth(IsBoolean,
      ValidBoth(SignaturesOk(),
      Anything()))))))))
  }

  ghost function InfoLayout(): Grammar<Info> {
    Sealed(PlainInfo())
  }

  lemma InfoInverse()
    ensures Inverse(InfoLayout(), InfoEncoder(), InfoLimits())
  {
    Unsealed(PlainInfo());
    IntInverse();
    StringInverse(MAXIMUM_PATH);
    StringInverse(HASH_BYTES);
    StringInverse(SIGNATURE_BYTES);
    StringInverse(CONTENT_ADDRESS_BYTES);
    ListInverse(StringParser(MAXIMUM_PATH), EncodeString, AtMostBytes(MAXIMUM_PATH), MAXIMUM_REFERENCES);
    ListInverse(StringParser(SIGNATURE_BYTES), EncodeString, AtMostBytes(SIGNATURE_BYTES), MAXIMUM_SIGNATURES);
    BothInverse(PlainSignatures(), ListEncoder(EncodeString), SignaturesFit(), StringParser(CONTENT_ADDRESS_BYTES),
            EncodeString, AtMostBytes(CONTENT_ADDRESS_BYTES));
    var p7, e7, x7 := Both(PlainSignatures(), StringParser(CONTENT_ADDRESS_BYTES)), EncodeBoth(ListEncoder(EncodeString),
            EncodeString), ValidBoth(SignaturesFit(), AtMostBytes(CONTENT_ADDRESS_BYTES));
    BothInverse(ParseInt, EncodeInt, AnyInt, p7, e7, x7);
    var p6, e6, x6 := Both(ParseInt, p7), EncodeBoth(EncodeInt, e7), ValidBoth(AnyInt, x7);
    BothInverse(ParseInt, EncodeInt, AnyInt, p6, e6, x6);
    var p5, e5, x5 := Both(ParseInt, p6), EncodeBoth(EncodeInt, e6), ValidBoth(AnyInt, x6);
    BothInverse(ParseInt, EncodeInt, AnyInt, p5, e5, x5);
    var p4, e4, x4 := Both(ParseInt, p5), EncodeBoth(EncodeInt, e5), ValidBoth(AnyInt, x5);
    BothInverse(PlainReferences(), ListEncoder(EncodeString), ReferencesFit(), p4, e4, x4);
    var p3, e3, x3 := Both(PlainReferences(), p4), EncodeBoth(ListEncoder(EncodeString), e4), ValidBoth(ReferencesFit(), x4);
    BothInverse(StringParser(HASH_BYTES), EncodeString, AtMostBytes(HASH_BYTES), p3, e3, x3);
    var p2, e2, x2 := Both(StringParser(HASH_BYTES), p3), EncodeBoth(EncodeString, e3), ValidBoth(AtMostBytes(HASH_BYTES), x3);
    BothInverse(StringParser(MAXIMUM_PATH), EncodeString, AtMostBytes(MAXIMUM_PATH), p2, e2, x2);
    var p1, e1, x1 := Both(StringParser(MAXIMUM_PATH), p2), EncodeBoth(EncodeString, e2), ValidBoth(AtMostBytes(MAXIMUM_PATH), x2);
    BothInverse(StringParser(MAXIMUM_PATH), EncodeString, AtMostBytes(MAXIMUM_PATH), p1, e1, x1);
  }

  lemma InfoChecks()
    ensures Checks(FromPathGrammar(), InfoLayout(), InfoOk())
  {
    Unsealed(PlainInfo());
    ChecksSealed(StringParser(MAXIMUM_PATH), ValidPath);
    ChecksSealed(StringParser(MAXIMUM_PATH), OptionalPath);
    ChecksSealed(ParseInt, AnyInt);
    ChecksSealed(ParseInt, IsBoolean);
    ChecksAny(HASH_BYTES);
    ChecksAny(CONTENT_ADDRESS_BYTES);
    ChecksStrings(MAXIMUM_REFERENCES, MAXIMUM_PATH, ValidPath, false);
    ChecksStrings(MAXIMUM_SIGNATURES, SIGNATURE_BYTES, AnyBytes, false);
    ChecksRow(SignaturesGrammar(), PlainSignatures(), SignaturesOk(), AnyString(CONTENT_ADDRESS_BYTES),
            StringParser(CONTENT_ADDRESS_BYTES), Anything());
    var p7, x7 := Both(PlainSignatures(), StringParser(CONTENT_ADDRESS_BYTES)), ValidBoth(SignaturesOk(), Anything());
    ChecksRow(Number(IsBoolean), ParseInt, IsBoolean, FromSignaturesGrammar(), p7, x7);
    var p6, x6 := Both(ParseInt, p7), ValidBoth(IsBoolean, x7);
    ChecksRow(Number(AnyInt), ParseInt, AnyInt, FromUltimateGrammar(), p6, x6);
    var p5, x5 := Both(ParseInt, p6), ValidBoth(AnyInt, x6);
    ChecksRow(Number(AnyInt), ParseInt, AnyInt, FromSizeGrammar(), p5, x5);
    var p4, x4 := Both(ParseInt, p5), ValidBoth(AnyInt, x5);
    ChecksRow(ReferencesGrammar(), PlainReferences(), ReferencesOk(), FromTimeGrammar(), p4, x4);
    var p3, x3 := Both(PlainReferences(), p4), ValidBoth(ReferencesOk(), x4);
    ChecksRow(AnyString(HASH_BYTES), StringParser(HASH_BYTES), Anything(), FromReferencesGrammar(), p3, x3);
    var p2, x2 := Both(StringParser(HASH_BYTES), p3), ValidBoth(Anything(), x3);
    ChecksRow(Str(MAXIMUM_PATH, OptionalPath), StringParser(MAXIMUM_PATH), OptionalPath, FromHashGrammar(), p2, x2);
    var p1, x1 := Both(StringParser(MAXIMUM_PATH), p2), ValidBoth(OptionalPath, x2);
    ChecksRow(Str(MAXIMUM_PATH, ValidPath), StringParser(MAXIMUM_PATH), ValidPath, FromDeriverGrammar(), p1, x1);
  }

  /** What the server checks of an object's metadata. */
  ghost predicate InfoValid(i: Info) {
    ValidPath(StorePath(i)) && OptionalPath(Deriver(i)) && Each(ValidPath, References(i)) && Ultimate(i) <= 1
  }

  lemma InfoOkMeans(i: Info)
    ensures InfoOk()(i) <==> InfoValid(i)
  {
    AcceptsStrings(ValidPath, false, References(i));
    AcceptsStrings(AnyBytes, false, Signatures(i));
    assert Each(AnyBytes, Signatures(i));
  }

  /** What an object's metadata keeps while the object is received. */
  function InfoCost(i: Info): nat {
    Padded(|StorePath(i)|) + (Padded(|Deriver(i)|) + (Padded(|NarHash(i)|) + (ListCost(VEC_SIZE, StringCost)(References(i))
    + (ListCost(VEC_SIZE, StringCost)(Signatures(i)) + Padded(|ContentAddress(i)|)))))
  }

  lemma InfoWeightMeans(i: Info)
    ensures FromPathWeight()(i) == InfoCost(i)
  {
    Unsealed(StringCost);
    ListWeightIs(VEC_SIZE, StringWeight(), StringCost, References(i));
    ListWeightIs(VEC_SIZE, StringWeight(), StringCost, Signatures(i));
    Unsealed(CostBoth(StringsWeight(), StringWeight()));
    Unsealed(CostBoth(Free<u64>(), FromSignaturesWeight()));
    Unsealed(CostBoth(Free<u64>(), FromUltimateWeight()));
    Unsealed(CostBoth(Free<u64>(), FromSizeWeight()));
    Unsealed(CostBoth(StringsWeight(), FromTimeWeight()));
    Unsealed(CostBoth(StringWeight(), FromReferencesWeight()));
    Unsealed(CostBoth(StringWeight(), FromHashWeight()));
    Unsealed(CostBoth(StringWeight(), FromDeriverWeight()));
  }

  ghost function EncodeInfo(): Info -> seq<byte> {
    Sealed(InfoEncoder())
  }

  ghost function WithinLimits(): Info -> bool {
    Sealed(InfoLimits())
  }

  ghost function EncodeObject(): Object -> seq<byte> {
    (o: Object) => EncodeInfo()(o.0) + o.1
  }

  ghost function Written(): Object -> bool {
    (o: Object) => WithinLimits()(o.0) && |o.1| == NarSize(o.0)
  }

  /** The metadata is valid and, taken by itself, fits; the receiver takes the object. */
  ghost function Taken(room: int, accepts: Receiver): Receiver {
    (o: Object, before: seq<Object>) => InfoValid(o.0) && InfoCost(o.0) <= room && accepts(o, before)
  }

  lemma InfoRoundTrip(i: Info, rest: seq<byte>)
    requires WithinLimits()(i)
    ensures FromPathGrammar()(EncodeInfo()(i) + rest) == if InfoValid(i) then Parsed(i, rest) else Failed
    ensures FromPathWeight()(i) == InfoCost(i)
  {
    InfoChecked(i, rest);
    InfoOkMeans(i);
    InfoWeightMeans(i);
  }

  lemma InfoChecked(i: Info, rest: seq<byte>)
    requires WithinLimits()(i)
    ensures FromPathGrammar()(EncodeInfo()(i) + rest) == if InfoOk()(i) then Parsed(i, rest) else Failed
  {
    Unsealed(InfoEncoder());
    Unsealed(InfoLimits());
    InfoInverse();
    InfoChecks();
    ChecksInverse(FromPathGrammar(), InfoLayout(), InfoOk(), EncodeInfo(), WithinLimits(), i, rest);
  }

  lemma ObjectReadBack(i: Info, nar: seq<byte>, rest: seq<byte>, room: int, accepts: Receiver, before: seq<Object>)
    requires WithinLimits()(i) && |nar| == NarSize(i)
    ensures ParseObject(EncodeInfo()(i) + (nar + rest), room, accepts, before) ==
            if InfoValid(i) && InfoCost(i) <= room && accepts((i, nar), before) then Parsed((i, nar), rest) else Failed
  {
    InfoRoundTrip(i, nar + rest);
    BodyRead(FromPathGrammar()(EncodeInfo()(i) + (nar + rest)), InfoValid(i), FromPathWeight(), room, NarSize,
            Against(accepts, before), i, nar, rest);
  }

  lemma ObjectRoundTrip(o: Object, rest: seq<byte>, room: int, accepts: Receiver, before: seq<Object>)
    requires Written()(o)
    ensures ObjectItem(room, accepts)(before)(EncodeObject()(o) + rest) ==
            if Taken(room, accepts)(o, before) then Parsed(o, rest) else Failed
  {
    Unsealed((s: seq<byte>) => ParseObject(s, room, accepts, before));
    Assoc(EncodeInfo()(o.0), o.1, rest);
    ObjectReadBack(o.0, o.1, rest, room, accepts, before);
  }

  lemma ObjectsTaken(room: int, accepts: Receiver)
    ensures Takes(ObjectItem(room, accepts), EncodeObject(), Written(), Taken(room, accepts))
  {
    forall o, before, rest | Written()(o)
      ensures ObjectItem(room, accepts)(before)(EncodeObject()(o) + rest) ==
              if Taken(room, accepts)(o, before) then Parsed(o, rest) else Failed
    {
      ObjectRoundTrip(o, rest, room, accepts, before);
    }
  }

  lemma ObjectsRead(objects: seq<Object>, room: int, accepts: Receiver)
    requires Each(Written(), objects)
    ensures ParseMore(ObjectItem(room, accepts), |objects|, [], EncodeItems(EncodeObject(), objects)) ==
            if Accepts(Taken(room, accepts), [], objects) then Parsed(objects, []) else Failed
  {
    ObjectsTaken(room, accepts);
    ItemsTaken(ObjectItem(room, accepts), EncodeObject(), Written(), Taken(room, accepts), objects, []);
  }

  lemma DecodedBehindCount(count: u64, s: seq<byte>, end: Option<seq<byte>>, room: int, accepts: Receiver)
    requires count <= MAXIMUM_OBJECTS
    ensures DecodeObjects(Flow(EncodeInt(count) + s, end), room, accepts) ==
            Whole(ParseMore(ObjectItem(room, accepts), count, [], s), end)
  {
    IntRoundTrip(count, s);
  }

  /** Objects written in order, cut into any non-empty frames, are decoded to themselves and
      leave what follows, exactly when each is valid, its metadata, taken by itself, fits into
      the budget, and the receiver takes it after those before it. */
  lemma AddMultipleRoundTrip(objects: seq<Object>, chunks: seq<seq<byte>>, after: seq<byte>, room: int, accepts: Receiver)
    requires |objects| <= 65536 && Each(Written(), objects)
    requires FrameSizes(chunks) && Concat(chunks) == EncodeList(EncodeObject(), objects)
    ensures var v := Unframe(0, false, EncodeFrames(chunks) + after);
            && v.end == Some(after)
            && DecodeObjects(v, room, accepts) == if Accepts(Taken(room, accepts), [], objects) then Some(objects) else None
  {
    UnframeInvertsFrames(chunks, after);
    assert AsU64(|objects|) == |objects|;
    DecodedBehindCount(|objects|, EncodeItems(EncodeObject(), objects), Some(after), room, accepts);
    ObjectsRead(objects, room, accepts);
  }

  // ----- nothing else is accepted -----

  lemma InfoCanonical(s: seq<byte>)
    requires FromPathGrammar()(s).Parsed?
    ensures var i := FromPathGrammar()(s).value;
            && WithinLimits()(i) && InfoValid(i) && FromPathWeight()(i) == InfoCost(i)
            && s == EncodeInfo()(i) + FromPathGrammar()(s).rest
  {
    Unsealed(InfoEncoder());
    Unsealed(InfoLimits());
    InfoInverse();
    InfoChecks();
    ChecksCanonical(FromPathGrammar(), InfoLayout(), InfoOk(), InfoEncoder(), InfoLimits(), s);
    InfoOkMeans(FromPathGrammar()(s).value);
    InfoWeightMeans(FromPathGrammar()(s).value);
  }

  lemma ObjectCanonical(s: seq<byte>, room: int, accepts: Receiver, before: seq<Object>)
    requires ObjectItem(room, accepts)(before)(s).Parsed?
    ensures var r := ObjectItem(room, accepts)(before)(s);
            Written()(r.value) && Taken(room, accepts)(r.value, before) && s == EncodeObject()(r.value) + r.rest
  {
    Unsealed((s: seq<byte>) => ParseObject(s, room, accepts, before));
    BodyCanonical(Weighed(FromPathGrammar()(s), FromPathWeight(), room), NarSize, Against(accepts, before));
    InfoCanonical(s);
    var r := ObjectItem(room, accepts)(before)(s);
    Assoc(EncodeInfo()(r.value.0), r.value.1, r.rest);
  }

  lemma ObjectsGiven(room: int, accepts: Receiver)
    ensures Gives(ObjectItem(room, accepts), EncodeObject(), Written(), Taken(room, accepts))
  {
    forall s, before | ObjectItem(room, accepts)(before)(s).Parsed?
      ensures Given(ObjectItem(room, accepts)(before)(s), s, before, EncodeObject(), Written(), Taken(room, accepts))
    {
      ObjectCanonical(s, room, accepts, before);
    }
  }

  /** What is decoded was written: nothing but the encoding of objects that are valid, fit and
      are taken is accepted. */
  lemma AddMultipleCanonical(v: View, room: int, accepts: Receiver)
    requires DecodeObjects(v, room, accepts).Some?
    ensures var objects := DecodeObjects(v, room, accepts).value;
            && |objects| <= 65536 && Each(Written(), objects) && Accepts(Taken(room, accepts), [], objects)
            && v.logical == EncodeList(EncodeObject(), objects)
  {
    IntCanonical(v.logical);
    var Parsed(count, rest) := ParseInt(v.logical);
    ObjectsGiven(room, accepts);
    ItemsGiven(ObjectItem(room, accepts), EncodeObject(), Written(), Taken(room, accepts), count, [], rest);
    var objects := DecodeObjects(v, room, accepts).value;
    assert AsU64(|objects|) == count;
    assert EncodeItems(EncodeObject(), objects) + [] == EncodeItems(EncodeObject(), objects);
  }

  // ----- the request, spelled out -----

  /** The two flags: only a false one for repair, then a strict one for unchecked signatures. */
  lemma FlagsOnWire(repair: u64, unchecked: u64, rest: seq<byte>)
    ensures ParseFlags(EncodeInt(repair) + (EncodeInt(unchecked) + rest)) ==
            if repair == 0 && unchecked <= 1 then Parsed(unchecked == 1, rest) else Failed
  {
    IntRoundTrip(repair, EncodeInt(unchecked) + rest);
    IntRoundTrip(unchecked, rest);
  }

  function MakeInfo(path: seq<byte>, deriver: seq<byte>, hash: seq<byte>, references: Strings, time: u64, size: u64, ultimate: u64,
                    signatures: Strings, contentAddress: seq<byte>): Info {
    (path, (deriver, (hash, (references, (time, (size, (ultimate, (signatures, contentAddress))))))))
  }

  /** An object's bytes: its fields one after the other, the length of its NAR among them, and
      the NAR. */
  function ObjectBytes(path: seq<byte>, deriver: seq<byte>, hash: seq<byte>, references: Strings, time: u64, ultimate: u64,
                       signatures: Strings, contentAddress: seq<byte>, nar: seq<byte>): seq<byte>
    requires |nar| <= MAX_U64
  {
    EncodeString(path) + (EncodeString(deriver) + (EncodeString(hash) + (EncodeList(EncodeString, references)
    + (EncodeInt(time) + (EncodeInt(|nar|) + (EncodeInt(ultimate) + (EncodeList(EncodeString, signatures)
    + (EncodeString(contentAddress) + nar))))))))
  }

  lemma InfoBytesAre(path: seq<byte>, deriver: seq<byte>, hash: seq<byte>, references: Strings, time: u64, size: u64, ultimate: u64,
                     signatures: Strings, contentAddress: seq<byte>)
    ensures EncodeInfo()(MakeInfo(path, deriver, hash, references, time, size, ultimate, signatures, contentAddress)) ==
            EncodeString(path) + (EncodeString(deriver) + (EncodeString(hash) + (EncodeList(EncodeString, references)
            + (EncodeInt(time) + (EncodeInt(size) + (EncodeInt(ultimate) + (EncodeList(EncodeString, signatures)
            + EncodeString(contentAddress))))))))
  {
    Unsealed(InfoEncoder());
  }

  lemma ObjectBytesAre(path: seq<byte>, deriver: seq<byte>, hash: seq<byte>, references: Strings, time: u64, ultimate: u64,
                       signatures: Strings, contentAddress: seq<byte>, nar: seq<byte>)
    requires |nar| <= MAX_U64
    ensures EncodeInfo()(MakeInfo(path, deriver, hash, references, time, |nar|, ultimate, signatures, contentAddress)) + nar ==
            ObjectBytes(path, deriver, hash, references, time, ultimate, signatures, contentAddress, nar)
  {
    InfoBytesAre(path, deriver, hash, references, time, |nar|, ultimate, signatures, contentAddress);
    var e9 := EncodeString(contentAddress);
    var e8 := EncodeList(EncodeString, signatures) + e9;
    var e7 := EncodeInt(ultimate) + e8;
    var e6 := EncodeInt(|nar|) + e7;
    var e5 := EncodeInt(time) + e6;
    var e4 := EncodeList(EncodeString, references) + e5;
    var e3 := EncodeString(hash) + e4;
    var e2 := EncodeString(deriver) + e3;
    Assoc(EncodeString(path), e2, nar);
    Assoc(EncodeString(deriver), e3, nar);
    Assoc(EncodeString(hash), e4, nar);
    Assoc(EncodeList(EncodeString, references), e5, nar);
    Assoc(EncodeInt(time), e6, nar);
    Assoc(EncodeInt(|nar|), e7, nar);
    Assoc(EncodeInt(ultimate), e8, nar);
    Assoc(EncodeList(EncodeString, signatures), e9, nar);
  }

  /** The decoder's limits on an object's fields. */
  ghost predicate FieldsInLimits(path: seq<byte>, deriver: seq<byte>, hash: seq<byte>, references: Strings, signatures: Strings,
                                 contentAddress: seq<byte>) {
    && |path| <= 222 && |deriver| <= 222 && |hash| <= 64
    && |references| <= 65536 && (forall i :: 0 <= i < |references| ==> |references[i]| <= 222)
    && |signatures| <= 256 && (forall i :: 0 <= i < |signatures| ==> |signatures[i]| <= 4096)
    && |contentAddress| <= 4096
  }

  /** The server's checks of them; an empty deriver stands for none. */
  ghost predicate FieldsAccepted(path: seq<byte>, deriver: seq<byte>, references: Strings, ultimate: u64) {
    && SpelledPath(path) && (deriver == [] || SpelledPath(deriver)) && ultimate <= 1
    && forall i :: 0 <= i < |references| ==> SpelledPath(references[i])
  }

  /** What they keep of the budget. */
  function FieldsCost(path: seq<byte>, deriver: seq<byte>, hash: seq<byte>, references: Strings, signatures: Strings,
                      contentAddress: seq<byte>): nat {
    Eights(|path|) + Eights(|deriver|) + Eights(|hash|) + Sum(KeptSizes(references)) + Sum(KeptSizes(signatures))
    + Eights(|contentAddress|)
  }

  lemma LimitsMean(path: seq<byte>, deriver: seq<byte>, hash: seq<byte>, references: Strings, time: u64, size: u64, ultimate: u64,
                   signatures: Strings, contentAddress: seq<byte>)
    ensures WithinLimits()(MakeInfo(path, deriver, hash, references, time, size, ultimate, signatures, contentAddress)) <==>
            FieldsInLimits(path, deriver, hash, references, signatures, contentAddress)
  {
    Unsealed(InfoLimits());
    assert ReferencesFit()(references) <==>
           |references| <= 65536 && forall i :: 0 <= i < |references| ==> |references[i]| <= 222;
    assert SignaturesFit()(signatures) <==>
           |signatures| <= 256 && forall i :: 0 <= i < |signatures| ==> |signatures[i]| <= 4096;
  }

  lemma ChecksMean(path: seq<byte>, deriver: seq<byte>, hash: seq<byte>, references: Strings, time: u64, size: u64, ultimate: u64,
                   signatures: Strings, contentAddress: seq<byte>)
    ensures InfoValid(MakeInfo(path, deriver, hash, references, time, size, ultimate, signatures, contentAddress)) <==>
            FieldsAccepted(path, deriver, references, ultimate)
  {
    ValidPathIff(path);
    ValidPathIff(deriver);
    forall i | 0 <= i < |references| ensures ValidPath(references[i]) <==> SpelledPath(references[i]) {
      ValidPathIff(references[i]);
    }
  }

  lemma CostMeans(path: seq<byte>, deriver: seq<byte>, hash: seq<byte>, references: Strings, time: u64, size: u64, ultimate: u64,
                  signatures: Strings, contentAddress: seq<byte>)
    ensures InfoCost(MakeInfo(path, deriver, hash, references, time, size, ultimate, signatures, contentAddress)) ==
            FieldsCost(path, deriver, hash, references, signatures, contentAddress)
  {
    PaddedIs(|path|);
    PaddedIs(|deriver|);
    PaddedIs(|hash|);
    PaddedIs(|contentAddress|);
    StringsCostIs(references);
    StringsCostIs(signatures);
  }

  /** One object written out: it is decoded, with its whole NAR for its body, exactly when its
      fields pass the checks and fit and the receiver takes it, whatever its time. */
  lemma ObjectArrivesIff(path: seq<byte>, deriver: seq<byte>, hash: seq<byte>, references: Strings, time: u64, ultimate: u64,
                         signatures: Strings, contentAddress: seq<byte>, nar: seq<byte>, after: seq<byte>, room: int,
                         accepts: Receiver)
    requires FieldsInLimits(path, deriver, hash, references, signatures, contentAddress) && |nar| <= MAX_U64
    ensures var o := (MakeInfo(path, deriver, hash, references, time, |nar|, ultimate, signatures, contentAddress), nar);
            var bytes := ObjectBytes(path, deriver, hash, references, time, ultimate, signatures, contentAddress, nar);
            DecodeObjects(Flow(EncodeInt(1) + bytes, Some(after)), room, accepts) ==
            if FieldsAccepted(path, deriver, references, ultimate)
               && FieldsCost(path, deriver, hash, references, signatures, contentAddress) <= room && accepts(o, [])
            then Some([o]) else None
  {
    var i := MakeInfo(path, deriver, hash, references, time, |nar|, ultimate, signatures, contentAddress);
    LimitsMean(path, deriver, hash, references, time, |nar|, ultimate, signatures, contentAddress);
    ChecksMean(path, deriver, hash, references, time, |nar|, ultimate, signatures, contentAddress);
    CostMeans(path, deriver, hash, references, time, |nar|, ultimate, signatures, contentAddress);
    ObjectBytesAre(path, deriver, hash, references, time, ultimate, signatures, contentAddress, nar);
    OneObject(i, nar, after, room, accepts);
  }

  lemma OneObject(i: Info, nar: seq<byte>, after: seq<byte>, room: int, accepts: Receiver)
    requires WithinLimits()(i) && |nar| == NarSize(i)
    ensures DecodeObjects(Flow(EncodeInt(1) + (EncodeInfo()(i) + nar), Some(after)), room, accepts) ==
            if InfoValid(i) && InfoCost(i) <= room && accepts((i, nar), []) then Some([(i, nar)]) else None
  {
    var objects: seq<Object> := [(i, nar)];
    ObjectsRead(objects, room, accepts);
    assert objects[1..] == [];
    assert EncodeItems(EncodeObject(), objects) == EncodeInfo()(i) + nar;
    DecodedBehindCount(1, EncodeInfo()(i) + nar, Some(after), room, accepts);
  }


  // ----- all objects, spelled out -----

  /** An object's bytes by position: path, deriver, hash, references, time, NAR size, ultimate,
      signatures, content address, NAR. */
  function SpelledBytes(o: Object): seq<byte> {
    EncodeString(o.0.0) + (EncodeString(o.0.1.0) + (EncodeString(o.0.1.1.0) + (EncodeList(EncodeString, o.0.1.1.1.0)
    + (EncodeInt(o.0.1.1.1.1.0) + (EncodeInt(o.0.1.1.1.1.1.0) + (EncodeInt(o.0.1.1.1.1.1.1.0)
    + (EncodeList(EncodeString, o.0.1.1.1.1.1.1.1.0) + (EncodeString(o.0.1.1.1.1.1.1.1.1) + o.1))))))))
  }

  /** Its announced size is that of its NAR, and its fields keep the limits. */
  ghost predicate SpelledSizes(o: Object) {
    && o.0.1.1.1.1.1.0 == |o.1|
    && FieldsInLimits(o.0.0, o.0.1.0, o.0.1.1.0, o.0.1.1.1.0, o.0.1.1.1.1.1.1.1.0, o.0.1.1.1.1.1.1.1.1)
  }

  /** The server's checks pass, what it keeps fits, and the receiver takes it after those before. */
  ghost predicate SpelledTaken(o: Object, before: seq<Object>, room: int, accepts: Receiver) {
    && FieldsAccepted(o.0.0, o.0.1.0, o.0.1.1.1.0, o.0.1.1.1.1.1.1.0)
    && FieldsCost(o.0.0, o.0.1.0, o.0.1.1.0, o.0.1.1.1.0, o.0.1.1.1.1.1.1.1.0, o.0.1.1.1.1.1.1.1.1) <= room
    && accepts(o, before)
  }

  lemma SpelledBytesAre(o: Object)
    requires |o.1| <= MAX_U64 && o.0.1.1.1.1.1.0 == |o.1|
    ensures EncodeObject()(o) == SpelledBytes(o)
  {
    var i := o.0;
    ObjectBytesAre(i.0, i.1.0, i.1.1.0, i.1.1.1.0, i.1.1.1.1.0, i.1.1.1.1.1.1.0, i.1.1.1.1.1.1.1.0, i.1.1.1.1.1.1.1.1, o.1);
  }

  lemma SpelledSizesIff(o: Object)
    ensures Written()(o) <==> SpelledSizes(o)
  {
    var i := o.0;
    LimitsMean(i.0, i.1.0, i.1.1.0, i.1.1.1.0, i.1.1.1.1.0, i.1.1.1.1.1.0, i.1.1.1.1.1.1.0, i.1.1.1.1.1.1.1.0, i.1.1.1.1.1.1.1.1);
  }

  lemma SpelledTakenIff(o: Object, before: seq<Object>, room: int, accepts: Receiver)
    ensures Taken(room, accepts)(o, before) <==> SpelledTaken(o, before, room, accepts)
  {
    var i := o.0;
    ChecksMean(i.0, i.1.0, i.1.1.0, i.1.1.1.0, i.1.1.1.1.0, i.1.1.1.1.1.0, i.1.1.1.1.1.1.0, i.1.1.1.1.1.1.1.0, i.1.1.1.1.1.1.1.1);
    CostMeans(i.0, i.1.0, i.1.1.0, i.1.1.1.0, i.1.1.1.1.0, i.1.1.1.1.1.0, i.1.1.1.1.1.1.0, i.1.1.1.1.1.1.1.0, i.1.1.1.1.1.1.1.1);
  }

  /** Each item is accepted after those before it. */
  lemma {:induction false} AcceptsEach<T>(ok: (T, seq<T>) -> bool, before: seq<T>, values: seq<T>)
    ensures Accepts(ok, before, values) <==> forall k :: 0 <= k < |values| ==> ok(values[k], before + values[..k])
    decreases |values|
  {
    if values != [] {
      var next, tail := before + [values[0]], values[1..];
      AcceptsEach(ok, next, tail);
      assert before + values[..0] == before;
      forall k | 0 <= k < |tail| ensures next + tail[..k] == before + values[..k + 1] && tail[k] == values[k + 1] {
        assert values[..k + 1] == [values[0]] + tail[..k];
      }
    }
  }

  lemma {:induction false} SameBytes(objects: seq<Object>)
    requires forall k :: 0 <= k < |objects| ==> EncodeObject()(objects[k]) == SpelledBytes(objects[k])
    ensures EncodeItems(EncodeObject(), objects) == EncodeItems(SpelledBytes, objects)
    decreases |objects|
  {
    if objects != [] {
      SameBytes(objects[1..]);
    }
  }

  ghost predicate SpelledObjects(objects: seq<Object>, room: int, accepts: Receiver) {
    && |objects| <= 65536
    && (forall k :: 0 <= k < |objects| ==> SpelledSizes(objects[k]))
    && (forall k :: 0 <= k < |objects| ==> SpelledTaken(objects[k], objects[..k], room, accepts))
  }

  lemma SpelledObjectsIff(objects: seq<Object>, room: int, accepts: Receiver)
    ensures SpelledObjects(objects, room, accepts) <==>
            |objects| <= 65536 && Each(Written(), objects) && Accepts(Taken(room, accepts), [], objects)
  {
    AcceptsEach(Taken(room, accepts), [], objects);
    forall k | 0 <= k < |objects| ensures Written()(objects[k]) <==> SpelledSizes(objects[k]) {
      SpelledSizesIff(objects[k]);
    }
    forall k | 0 <= k < |objects|
      ensures Taken(room, accepts)(objects[k], [] + objects[..k]) <==> SpelledTaken(objects[k], objects[..k], room, accepts)
    {
      assert [] + objects[..k] == objects[..k];
      SpelledTakenIff(objects[k], objects[..k], room, accepts);
    }
  }

  /** Whatever the frames carry, objects are decoded exactly when the stream ends and is their
      count and their bytes, one after the other, each of them keeps the limits, passes the
      checks, fits by itself and is taken by the receiver after those before it. */
  lemma ObjectsReadIff(v: View, room: int, accepts: Receiver, objects: seq<Object>)
    ensures DecodeObjects(v, room, accepts) == Some(objects) <==>
            && v.end.Some? && SpelledObjects(objects, room, accepts)
            && v.logical == EncodeInt(AsU64(|objects|)) + EncodeItems(SpelledBytes, objects)
  {
    if DecodeObjects(v, room, accepts) == Some(objects) {
      ObjectsHeard(v, room, accepts, objects);
    }
    if v.end.Some? && SpelledObjects(objects, room, accepts) && v.logical == EncodeInt(AsU64(|objects|)) + EncodeItems(SpelledBytes, objects) {
      ObjectsSpoken(v, room, accepts, objects);
    }
  }

  lemma AllBytes(objects: seq<Object>)
    requires forall k :: 0 <= k < |objects| ==> SpelledSizes(objects[k])
    ensures EncodeItems(EncodeObject(), objects) == EncodeItems(SpelledBytes, objects)
  {
    forall k | 0 <= k < |objects| ensures EncodeObject()(objects[k]) == SpelledBytes(objects[k]) {
      assert SpelledSizes(objects[k]);
      SpelledBytesAre(objects[k]);
    }
    SameBytes(objects);
  }

  lemma ObjectsHeard(v: View, room: int, accepts: Receiver, objects: seq<Object>)
    requires DecodeObjects(v, room, accepts) == Some(objects)
    ensures v.end.Some? && SpelledObjects(objects, room, accepts)
    ensures v.logical == EncodeInt(AsU64(|objects|)) + EncodeItems(SpelledBytes, objects)
  {
    HeardSpelled(v, room, accepts, objects);
    HeardBytes(v, room, accepts, objects);
    BytesSpelled(objects, room, accepts);
  }

  lemma HeardSpelled(v: View, room: int, accepts: Receiver, objects: seq<Object>)
    requires DecodeObjects(v, room, accepts) == Some(objects)
    ensures v.end.Some? && SpelledObjects(objects, room, accepts)
  {
    AddMultipleCanonical(v, room, accepts);
    SpelledObjectsIff(objects, room, accepts);
  }

  lemma HeardBytes(v: View, room: int, accepts: Receiver, objects: seq<Object>)
    requires DecodeObjects(v, room, accepts) == Some(objects)
    ensures v.logical == EncodeInt(AsU64(|objects|)) + EncodeItems(EncodeObject(), objects)
  {
    AddMultipleCanonical(v, room, accepts);
  }

  lemma BytesSpelled(objects: seq<Object>, room: int, accepts: Receiver)
    requires SpelledObjects(objects, room, accepts)
    ensures EncodeItems(EncodeObject(), objects) == EncodeItems(SpelledBytes, objects)
  {
    AllBytes(objects);
  }

  lemma WrittenDecoded(objects: seq<Object>, end: Option<seq<byte>>, room: int, accepts: Receiver)
    requires |objects| <= 65536 && Each(Written(), objects) && Accepts(Taken(room, accepts), [], objects) && end.Some?
    ensures DecodeObjects(Flow(EncodeInt(|objects|) + EncodeItems(EncodeObject(), objects), end), room, accepts) == Some(objects)
  {
    DecodedBehindCount(|objects|, EncodeItems(EncodeObject(), objects), end, room, accepts);
    ObjectsRead(objects, room, accepts);
  }

  lemma ObjectsSpoken(v: View, room: int, accepts: Receiver, objects: seq<Object>)
    requires v.end.Some? && SpelledObjects(objects, room, accepts)
    requires v.logical == EncodeInt(AsU64(|objects|)) + EncodeItems(SpelledBytes, objects)
    ensures DecodeObjects(v, room, accepts) == Some(objects)
  {
    SpelledObjectsIff(objects, room, accepts);
    AllBytes(objects);
    FitsU64(|objects|);
    WrittenDecoded(objects, v.end, room, accepts);
  }
}
