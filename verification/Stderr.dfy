/** Structured stderr frames: the server's writer, the client's two readers, and the exact
    language between them. */
module Stderr {
  import opened Basics
  import opened Bytes
  import opened Wire
  import opened Codec
  import opened Streams

  const STDERR_NEXT: u64 := 0x6f6c_6d67
  const STDERR_LAST: u64 := 0x616c_7473
  const STDERR_ERROR: u64 := 0x6378_7470
  const STDERR_START_ACTIVITY: u64 := 0x5354_5254
  const STDERR_STOP_ACTIVITY: u64 := 0x5354_4f50
  const STDERR_RESULT: u64 := 0x5253_4c54
  const MESSAGE_BYTES := 16 * 1024
  const FRAME_FIELDS := 64
  const FIELD_BYTES := 4 * 1024
  const BUILD_LOG_LINE: u64 := 101

  datatype Field = Integer(number: u64) | Text(text: seq<byte>)

  datatype Frame =
    | Next(message: seq<byte>)
    | StartActivity(id: u64, verbosity: u64, kind: u64, message: seq<byte>, fields: seq<Field>, parent: u64)
    | StopActivity(id: u64)
    | Result(id: u64, kind: u64, fields: seq<Field>)
    | Last

  // ----- fields -----

  function EncodeField(f: Field): seq<byte> {
    match f
    case Integer(n) => EncodeInt(0) + EncodeInt(n)
    case Text(t) => EncodeInt(1) + EncodeString(t)
  }

  function ParseField(s: seq<byte>, limit: nat): Parsed<Field> {
    match ParseInt(s)
    case Failed => Failed
    case Parsed(tag, rest) =>
      if tag == 0 then
        match ParseInt(rest)
        case Failed => Failed
        case Parsed(n, rest') => Parsed(Integer(n), rest')
      else if tag == 1 then
        match ParseString(rest, limit)
        case Failed => Failed
        case Parsed(t, rest') => Parsed(Text(t), rest')
      else Failed
  }

  function FieldParser(limit: nat): seq<byte> -> Parsed<Field> {
    s => ParseField(s, limit)
  }

  ghost function FieldGrammar(limit: nat): seq<byte> -> Parsed<Field> {
    Sealed(FieldParser(limit))
  }

  predicate Within(f: Field, limit: nat) {
    f.Text? ==> |f.text| <= limit
  }

  function FieldWithin(limit: nat): Field -> bool {
    f => Within(f, limit)
  }

  lemma FieldRoundTrip(limit: nat, f: Field, rest: seq<byte>)
    requires limit <= MAX_U64 && Within(f, limit)
    ensures ParseField(EncodeField(f) + rest, limit) == Parsed(f, rest)
  {
    match f
    case Integer(n) =>
      assert EncodeField(f) + rest == EncodeInt(0) + (EncodeInt(n) + rest);
      IntRoundTrip(0, EncodeInt(n) + rest);
      IntRoundTrip(n, rest);
    case Text(t) =>
      assert EncodeField(f) + rest == EncodeInt(1) + (EncodeString(t) + rest);
      IntRoundTrip(1, EncodeString(t) + rest);
      StringRoundTrip(t, limit, rest);
  }

  lemma FieldCanonical(limit: nat, s: seq<byte>)
    requires limit <= MAX_U64 && ParseField(s, limit).Parsed?
    ensures var r := ParseField(s, limit); Within(r.value, limit) && s == EncodeField(r.value) + r.rest
  {
    IntCanonical(s);
    var Parsed(tag, rest) := ParseInt(s);
    var r := ParseField(s, limit);
    if tag == 0 {
      IntCanonical(rest);
      Assoc(EncodeInt(0), EncodeInt(r.value.number), r.rest);
    } else {
      StringCanonical(rest, limit);
      Assoc(EncodeInt(1), EncodeString(r.value.text), r.rest);
    }
  }

  lemma FieldInverse(limit: nat)
    requires limit <= MAX_U64
    ensures Inverse(FieldParser(limit), EncodeField, FieldWithin(limit))
  {
    forall f, rest | FieldWithin(limit)(f) ensures FieldParser(limit)(EncodeField(f) + rest) == Parsed(f, rest) {
      FieldRoundTrip(limit, f, rest);
    }
    forall s | FieldParser(limit)(s).Parsed?
      ensures var r := FieldParser(limit)(s); FieldWithin(limit)(r.value) && s == EncodeField(r.value) + r.rest
    {
      FieldCanonical(limit, s);
    }
  }

  /** `count` fields, the first of up to `first` bytes. */
  function ParseCounted(s: seq<byte>, count: nat, first: nat): Parsed<seq<Field>> {
    if count == 0 then Parsed([], s)
    else
      match ParseField(s, first)
      case Failed => Failed
      case Parsed(f, rest) => ParseItems(FieldParser(FIELD_BYTES), rest, count - 1, [f])
  }

  function ParseFields(s: seq<byte>, first: nat): Parsed<seq<Field>> {
    match ParseInt(s)
    case Failed => Failed
    case Parsed(count, rest) => if count > FRAME_FIELDS then Failed else ParseCounted(rest, count, first)
  }

  function FieldsParser(first: nat): seq<byte> -> Parsed<seq<Field>> {
    s => ParseFields(s, first)
  }

  function EncodeFields(fields: seq<Field>): seq<byte> {
    EncodeList(EncodeField, fields)
  }

  predicate AllWithin(fields: seq<Field>, first: nat) {
    forall i :: 0 <= i < |fields| ==> Within(fields[i], if i == 0 then first else FIELD_BYTES)
  }

  function FieldsWithin(first: nat): seq<Field> -> bool {
    fields => |fields| <= FRAME_FIELDS && AllWithin(fields, first)
  }

  lemma PlainRoundTrip(more: seq<Field>, f: Field, rest: seq<byte>)
    requires forall i :: 0 <= i < |more| ==> Within(more[i], FIELD_BYTES)
    ensures ParseItems(FieldParser(FIELD_BYTES), EncodeItems(EncodeField, more) + rest, |more|, [f]) == Parsed([f] + more, rest)
  {
    FieldInverse(FIELD_BYTES);
    ItemsRoundTrip(FieldParser(FIELD_BYTES), EncodeField, FieldWithin(FIELD_BYTES), more, [f], rest);
  }

  lemma PlainCanonical(s: seq<byte>, count: nat, f: Field)
    requires ParseItems(FieldParser(FIELD_BYTES), s, count, [f]).Parsed?
    ensures var r := ParseItems(FieldParser(FIELD_BYTES), s, count, [f]);
            var more := r.value[1..];
            && r.value == [f] + more && |more| == count
            && (forall i :: 0 <= i < |more| ==> Within(more[i], FIELD_BYTES))
            && s == EncodeItems(EncodeField, more) + r.rest
  {
    FieldInverse(FIELD_BYTES);
    ItemsCanonical(FieldParser(FIELD_BYTES), EncodeField, FieldWithin(FIELD_BYTES), s, count, [f]);
    var values := ParseItems(FieldParser(FIELD_BYTES), s, count, [f]).value[1..];
    assert AllValid(FieldWithin(FIELD_BYTES), values);
    assert forall i :: 0 <= i < |values| ==> FieldWithin(FIELD_BYTES)(values[i]);
  }

  lemma RestWithin(fields: seq<Field>, first: nat)
    requires fields != [] && AllWithin(fields, first)
    ensures var more := fields[1..];
            fields == [fields[0]] + more && forall i :: 0 <= i < |more| ==> Within(more[i], FIELD_BYTES)
  {
    var more := fields[1..];
    forall i | 0 <= i < |more| ensures Within(more[i], FIELD_BYTES) {
      assert more[i] == fields[i + 1];
    }
  }

  lemma FirstOfCounted(s: seq<byte>, count: nat, first: nat, f: Field, rest: seq<byte>)
    requires count > 0 && ParseField(s, first) == Parsed(f, rest)
    ensures ParseCounted(s, count, first) == ParseItems(FieldParser(FIELD_BYTES), rest, count - 1, [f])
  {
  }

  lemma CountedRoundTrip(fields: seq<Field>, first: nat, rest: seq<byte>)
    requires first <= MAX_U64 && AllWithin(fields, first)
    ensures ParseCounted(EncodeItems(EncodeField, fields) + rest, |fields|, first) == Parsed(fields, rest)
  {
    if fields == [] {
      assert EncodeItems(EncodeField, fields) + rest == rest;
    } else {
      var f, more := fields[0], fields[1..];
      var tail := EncodeItems(EncodeField, more) + rest;
      EncodeItemsFirst(EncodeField, fields, rest);
      FieldRoundTrip(first, f, tail);
      RestWithin(fields, first);
      PlainRoundTrip(more, f, rest);
      FirstOfCounted(EncodeField(f) + tail, |fields|, first, f, tail);
    }
  }

  lemma FieldsFirst(f: Field, more: seq<Field>)
    ensures EncodeItems(EncodeField, [f] + more) == EncodeField(f) + EncodeItems(EncodeField, more)
  {
    assert ([f] + more)[1..] == more;
  }

  lemma ConsWithin(f: Field, more: seq<Field>, first: nat)
    requires Within(f, first) && forall i :: 0 <= i < |more| ==> Within(more[i], FIELD_BYTES)
    ensures AllWithin([f] + more, first)
  {
  }

  lemma CountedCanonical(s: seq<byte>, count: nat, first: nat)
    requires first <= MAX_U64 && ParseCounted(s, count, first).Parsed?
    ensures var r := ParseCounted(s, count, first);
            |r.value| == count && AllWithin(r.value, first) && s == EncodeItems(EncodeField, r.value) + r.rest
  {
    if count > 0 {
      FieldCanonical(first, s);
      var Parsed(f, rest) := ParseField(s, first);
      PlainCanonical(rest, count - 1, f);
      var r := ParseItems(FieldParser(FIELD_BYTES), rest, count - 1, [f]);
      var more := r.value[1..];
      ConsWithin(f, more, first);
      FieldsFirst(f, more);
      Assoc(EncodeField(f), EncodeItems(EncodeField, more), r.rest);
    }
  }

  lemma FieldsRoundTrip(v: seq<Field>, first: nat, rest: seq<byte>)
    requires first <= MAX_U64 && |v| <= FRAME_FIELDS && AllWithin(v, first)
    ensures ParseFields(EncodeFields(v) + rest, first) == Parsed(v, rest)
  {
    var items := EncodeItems(EncodeField, v);
    Assoc(EncodeInt(|v|), items, rest);
    IntRoundTrip(|v|, items + rest);
    CountedRoundTrip(v, first, rest);
  }

  lemma FieldsCanonical(s: seq<byte>, first: nat)
    requires first <= MAX_U64 && ParseFields(s, first).Parsed?
    ensures var r := ParseFields(s, first);
            |r.value| <= FRAME_FIELDS && AllWithin(r.value, first) && s == EncodeFields(r.value) + r.rest
  {
    IntCanonical(s);
    var Parsed(count, rest) := ParseInt(s);
    CountedCanonical(rest, count, first);
    var r := ParseFields(s, first);
    Assoc(EncodeInt(count), EncodeItems(EncodeField, r.value), r.rest);
  }

  lemma FieldsInverse(first: nat)
    requires first <= MAX_U64
    ensures Inverse(FieldsParser(first), EncodeFields, FieldsWithin(first))
  {
    forall v, rest | FieldsWithin(first)(v) ensures FieldsParser(first)(EncodeFields(v) + rest) == Parsed(v, rest) {
      FieldsRoundTrip(v, first, rest);
    }
    forall s | FieldsParser(first)(s).Parsed?
      ensures var r := FieldsParser(first)(s); FieldsWithin(first)(r.value) && s == EncodeFields(r.value) + r.rest
    {
      FieldsCanonical(s, first);
    }
  }

  // ----- frames -----

  type StartBody = (u64, (u64, (u64, (seq<byte>, (seq<Field>, u64)))))
  type ResultBody = (u64, (u64, seq<Field>))

  function StartParser(): seq<byte> -> Parsed<StartBody> {
    Both(ParseInt, Both(ParseInt, Both(ParseInt, Both(StringParser(MESSAGE_BYTES), Both(FieldsParser(FIELD_BYTES), ParseInt)))))
  }

  function StartEncoder(): StartBody -> seq<byte> {
    EncodeBoth(EncodeInt, EncodeBoth(EncodeInt, EncodeBoth(EncodeInt, EncodeBoth(EncodeString, EncodeBoth(EncodeFields, EncodeInt)))))
  }

  function StartValid(): StartBody -> bool {
    ValidBoth(AnyInt, ValidBoth(AnyInt, ValidBoth(AnyInt, ValidBoth(AtMostBytes(MESSAGE_BYTES),
            ValidBoth(FieldsWithin(FIELD_BYTES), AnyInt)))))
  }

  lemma StartInverse()
    ensures Inverse(StartParser(), StartEncoder(), StartValid())
  {
    IntInverse();
    StringInverse(MESSAGE_BYTES);
    FieldsInverse(FIELD_BYTES);
    var p5, e5, v5 := Both(FieldsParser(FIELD_BYTES), ParseInt), EncodeBoth(EncodeFields, EncodeInt),
            ValidBoth(FieldsWithin(FIELD_BYTES), AnyInt);
    BothInverse(FieldsParser(FIELD_BYTES), EncodeFields, FieldsWithin(FIELD_BYTES), ParseInt, EncodeInt, AnyInt);
    var p4, e4, v4 := Both(StringParser(MESSAGE_BYTES), p5), EncodeBoth(EncodeString, e5), ValidBoth(AtMostBytes(MESSAGE_BYTES), v5);
    BothInverse(StringParser(MESSAGE_BYTES), EncodeString, AtMostBytes(MESSAGE_BYTES), p5, e5, v5);
    var p3, e3, v3 := Both(ParseInt, p4), EncodeBoth(EncodeInt, e4), ValidBoth(AnyInt, v4);
    BothInverse(ParseInt, EncodeInt, AnyInt, p4, e4, v4);
    var p2, e2, v2 := Both(ParseInt, p3), EncodeBoth(EncodeInt, e3), ValidBoth(AnyInt, v3);
    BothInverse(ParseInt, EncodeInt, AnyInt, p3, e3, v3);
    BothInverse(ParseInt, EncodeInt, AnyInt, p2, e2, v2);
  }

  lemma StartRoundTrip(b: StartBody, rest: seq<byte>)
    requires |b.1.1.1.0| <= MESSAGE_BYTES && FieldsWithin(FIELD_BYTES)(b.1.1.1.1.0)
    ensures StartParser()(StartEncoder()(b) + rest) == Parsed(b, rest)
  {
    StartInverse();
    assert StartValid()(b);
  }

  lemma StartCanonical(s: seq<byte>)
    requires StartParser()(s).Parsed?
    ensures var Parsed(b, rest) := StartParser()(s);
            && s == StartEncoder()(b) + rest
            && |b.1.1.1.0| <= MESSAGE_BYTES && FieldsWithin(FIELD_BYTES)(b.1.1.1.1.0)
  {
    StartInverse();
    assert StartValid()(StartParser()(s).value);
  }

  /** A captured build-log line may be as long as a message. */
  function FirstLimit(capture: bool): u64 -> nat {
    kind => if capture && kind == BUILD_LOG_LINE then MESSAGE_BYTES else FIELD_BYTES
  }

  function ResultFields(capture: bool): u64 -> seq<byte> -> Parsed<seq<Field>> {
    kind => FieldsParser(FirstLimit(capture)(kind))
  }

  function ResultFieldsValid(capture: bool): u64 -> seq<Field> -> bool {
    kind => FieldsWithin(FirstLimit(capture)(kind))
  }

  function ResultParser(capture: bool): seq<byte> -> Parsed<ResultBody> {
    Both(ParseInt, Then(ParseInt, ResultFields(capture)))
  }

  function ResultEncoder(): ResultBody -> seq<byte> {
    EncodeBoth(EncodeInt, EncodeBoth(EncodeInt, EncodeFields))
  }

  function ResultValid(capture: bool): ResultBody -> bool {
    ValidBoth(AnyInt, ValidThen(AnyInt, ResultFieldsValid(capture)))
  }

  lemma ResultInverse(capture: bool)
    ensures Inverse(ResultParser(capture), ResultEncoder(), ResultValid(capture))
  {
    IntInverse();
    forall kind ensures Inverse(ResultFields(capture)(kind), EncodeFields, ResultFieldsValid(capture)(kind)) {
      FieldsInverse(FirstLimit(capture)(kind));
    }
    ThenInverse(ParseInt, EncodeInt, AnyInt, ResultFields(capture), EncodeFields, ResultFieldsValid(capture));
    BothInverse(ParseInt, EncodeInt, AnyInt, Then(ParseInt, ResultFields(capture)), EncodeBoth(EncodeInt, EncodeFields),
            ValidThen(AnyInt, ResultFieldsValid(capture)));
  }

  lemma ResultRoundTrip(b: ResultBody, capture: bool, rest: seq<byte>)
    requires FieldsWithin(FirstLimit(capture)(b.1.0))(b.1.1)
    ensures ResultParser(capture)(ResultEncoder()(b) + rest) == Parsed(b, rest)
  {
    ResultInverse(capture);
    assert ResultValid(capture)(b);
  }

  lemma ResultCanonical(s: seq<byte>, capture: bool)
    requires ResultParser(capture)(s).Parsed?
    ensures var Parsed(b, rest) := ResultParser(capture)(s);
            s == ResultEncoder()(b) + rest && FieldsWithin(FirstLimit(capture)(b.1.0))(b.1.1)
  {
    ResultInverse(capture);
    assert ResultValid(capture)(ResultParser(capture)(s).value);
  }

  function EncodeFrame(f: Frame): seq<byte> {
    EncodeInt(TagOf(f)) + EncodeFrameBody(f)
  }

  function ParseFrameBody(tag: u64, s: seq<byte>, capture: bool): Parsed<Frame> {
    if tag == STDERR_NEXT then
      match ParseString(s, MESSAGE_BYTES)
      case Failed => Failed
      case Parsed(m, rest) => Parsed(Next(m), rest)
    else if tag == STDERR_START_ACTIVITY then
      match StartParser()(s)
      case Failed => Failed
      case Parsed((id, (v, (k, (m, (fs, p))))), rest) => Parsed(StartActivity(id, v, k, m, fs, p), rest)
    else if tag == STDERR_STOP_ACTIVITY then
      match ParseInt(s)
      case Failed => Failed
      case Parsed(id, rest) => Parsed(StopActivity(id), rest)
    else if tag == STDERR_RESULT then
      match ResultParser(capture)(s)
      case Failed => Failed
      case Parsed((id, (k, fs)), rest) => Parsed(Result(id, k, fs), rest)
    else Failed
  }

  /** A frame the client reads through; `capture` is whether it forwards build-log lines. */
  function ParseFrame(s: seq<byte>, capture: bool): Parsed<Frame> {
    match ParseInt(s)
    case Failed => Failed
    case Parsed(tag, rest) => ParseFrameBody(tag, rest, capture)
  }

  /** What the reader's limits allow of the frames before Last. */
  predicate Readable(f: Frame, capture: bool) {
    match f
    case Next(m) => |m| <= MESSAGE_BYTES
    case StartActivity(_, _, _, m, fs, _) => |m| <= MESSAGE_BYTES && FieldsWithin(FIELD_BYTES)(fs)
    case StopActivity(_) => true
    case Result(_, k, fs) => FieldsWithin(FirstLimit(capture)(k))(fs)
    case Last => false
  }

  /** What the writer's `validate_stderr_frame` allows. */
  predicate ValidFrame(f: Frame) {
    match f
    case Next(m) => |m| <= MESSAGE_BYTES
    case StartActivity(_, _, _, m, fs, _) => |m| <= MESSAGE_BYTES && ValidFields(fs)
    case StopActivity(_) => true
    case Result(_, _, fs) => ValidFields(fs)
    case Last => true
  }

  predicate ValidFields(fs: seq<Field>) {
    |fs| <= FRAME_FIELDS && forall i :: 0 <= i < |fs| ==> Within(fs[i], FIELD_BYTES)
  }

  function TagOf(f: Frame): u64 {
    match f
    case Next(_) => STDERR_NEXT
    case StartActivity(_, _, _, _, _, _) => STDERR_START_ACTIVITY
    case StopActivity(_) => STDERR_STOP_ACTIVITY
    case Result(_, _, _) => STDERR_RESULT
    case Last => STDERR_LAST
  }

  function EncodeFrameBody(f: Frame): seq<byte> {
    match f
    case Next(m) => EncodeString(m)
    case StartActivity(id, v, k, m, fs, p) => StartEncoder()((id, (v, (k, (m, (fs, p))))))
    case StopActivity(id) => EncodeInt(id)
    case Result(id, k, fs) => ResultEncoder()((id, (k, fs)))
    case Last => []
  }

  lemma BodyRoundTrip(f: Frame, capture: bool, rest: seq<byte>)
    requires Readable(f, capture)
    ensures ParseFrameBody(TagOf(f), EncodeFrameBody(f) + rest, capture) == Parsed(f, rest)
  {
    match f
    case Next(m) => StringRoundTrip(m, MESSAGE_BYTES, rest);
    case StartActivity(id, v, k, m, fs, p) => StartRoundTrip((id, (v, (k, (m, (fs, p))))), rest);
    case StopActivity(id) => IntRoundTrip(id, rest);
    case Result(id, k, fs) => ResultRoundTrip((id, (k, fs)), capture, rest);
    case Last =>
  }

  lemma BodyCanonical(tag: u64, s: seq<byte>, capture: bool)
    requires ParseFrameBody(tag, s, capture).Parsed?
    ensures var Parsed(f, rest) := ParseFrameBody(tag, s, capture);
            TagOf(f) == tag && Readable(f, capture) && s == EncodeFrameBody(f) + rest
  {
    if tag == STDERR_NEXT {
      StringCanonical(s, MESSAGE_BYTES);
    } else if tag == STDERR_START_ACTIVITY {
      StartCanonical(s);
    } else if tag == STDERR_STOP_ACTIVITY {
      IntCanonical(s);
    } else {
      ResultCanonical(s, capture);
    }
  }

  lemma FrameRoundTrip(f: Frame, capture: bool, rest: seq<byte>)
    requires Readable(f, capture)
    ensures ParseFrame(EncodeFrame(f) + rest, capture) == Parsed(f, rest)
  {
    Assoc(EncodeInt(TagOf(f)), EncodeFrameBody(f), rest);
    IntRoundTrip(TagOf(f), EncodeFrameBody(f) + rest);
    BodyRoundTrip(f, capture, rest);
  }

  lemma FrameCanonical(s: seq<byte>, capture: bool)
    requires ParseFrame(s, capture).Parsed?
    ensures var r := ParseFrame(s, capture); Readable(r.value, capture) && s == EncodeFrame(r.value) + r.rest
  {
    IntCanonical(s);
    var Parsed(tag, rest) := ParseInt(s);
    BodyCanonical(tag, rest, capture);
    var r := ParseFrame(s, capture);
    Assoc(EncodeInt(tag), EncodeFrameBody(r.value), r.rest);
  }

  // ----- the terminal error -----

  type ErrorBody = (seq<byte>, (u64, (seq<byte>, (seq<byte>, (u64, seq<(u64, seq<byte>)>)))))

  function TraceParser(): seq<byte> -> Parsed<(u64, seq<byte>)> {
    Both(ParseInt, StringParser(MESSAGE_BYTES))
  }

  function ErrorParser(): seq<byte> -> Parsed<ErrorBody> {
    Both(StringParser(256), Both(ParseInt, Both(StringParser(256), Both(StringParser(MESSAGE_BYTES),
      Both(ParseInt, ListParser(TraceParser(), FRAME_FIELDS))))))
  }

  /** The message of an error frame, in the form used since protocol 1.26 or the older one. */
  function ParseError(s: seq<byte>, modern: bool): Parsed<seq<byte>> {
    if modern then
      match ErrorParser()(s)
      case Failed => Failed
      case Parsed(b, rest) => Parsed(b.1.1.1.0, rest)
    else
      match Both(StringParser(MESSAGE_BYTES), ParseInt)(s)
      case Failed => Failed
      case Parsed(b, rest) => Parsed(b.0, rest)
  }

  const ERROR_NAME: seq<byte> := [69, 114, 114, 111, 114]

  /** `write_worker_error` after its tag: no position and no traces. */
  function EncodeErrorBody(message: seq<byte>): seq<byte> {
    EncodeString(ERROR_NAME) + (EncodeInt(0) + (EncodeString(ERROR_NAME) + (EncodeString(message) + (EncodeInt(0) + EncodeInt(0)))))
  }

  function ErrorEncoder(): ErrorBody -> seq<byte> {
    EncodeBoth(EncodeString, EncodeBoth(EncodeInt, EncodeBoth(EncodeString, EncodeBoth(EncodeString,
      EncodeBoth(EncodeInt, ListEncoder(EncodeBoth(EncodeInt, EncodeString)))))))
  }

  function TraceValid(): ((u64, seq<byte>)) -> bool {
    ValidBoth(AnyInt, AtMostBytes(MESSAGE_BYTES))
  }

  function ErrorValid(): ErrorBody -> bool {
    ValidBoth(AtMostBytes(256), ValidBoth(AnyInt, ValidBoth(AtMostBytes(256), ValidBoth(AtMostBytes(MESSAGE_BYTES),
      ValidBoth(AnyInt, ValidList(TraceValid(), FRAME_FIELDS))))))
  }

  lemma ErrorInverse()
    ensures Inverse(ErrorParser(), ErrorEncoder(), ErrorValid())
  {
    IntInverse();
    StringInverse(256);
    StringInverse(MESSAGE_BYTES);
    BothInverse(ParseInt, EncodeInt, AnyInt, StringParser(MESSAGE_BYTES), EncodeString, AtMostBytes(MESSAGE_BYTES));
    ListInverse(TraceParser(), EncodeBoth(EncodeInt, EncodeString), TraceValid(), FRAME_FIELDS);
    var p5, e5, v5 := ListParser(TraceParser(), FRAME_FIELDS), ListEncoder(EncodeBoth(EncodeInt, EncodeString)),
            ValidList(TraceValid(), FRAME_FIELDS);
    var p4, e4, v4 := Both(ParseInt, p5), EncodeBoth(EncodeInt, e5), ValidBoth(AnyInt, v5);
    BothInverse(ParseInt, EncodeInt, AnyInt, p5, e5, v5);
    var p3, e3, v3 := Both(StringParser(MESSAGE_BYTES), p4), EncodeBoth(EncodeString, e4), ValidBoth(AtMostBytes(MESSAGE_BYTES), v4);
    BothInverse(StringParser(MESSAGE_BYTES), EncodeString, AtMostBytes(MESSAGE_BYTES), p4, e4, v4);
    var p2, e2, v2 := Both(StringParser(256), p3), EncodeBoth(EncodeString, e3), ValidBoth(AtMostBytes(256), v3);
    BothInverse(StringParser(256), EncodeString, AtMostBytes(256), p3, e3, v3);
    var p1, e1, v1 := Both(ParseInt, p2), EncodeBoth(EncodeInt, e2), ValidBoth(AnyInt, v2);
    BothInverse(ParseInt, EncodeInt, AnyInt, p2, e2, v2);
    BothInverse(StringParser(256), EncodeString, AtMostBytes(256), p1, e1, v1);
  }

  lemma ErrorBodyRead(b: ErrorBody, rest: seq<byte>)
    requires ErrorValid()(b)
    ensures ErrorParser()(ErrorEncoder()(b) + rest) == Parsed(b, rest)
  {
    ErrorInverse();
  }

  lemma ErrorRoundTrip(message: seq<byte>, rest: seq<byte>)
    requires |message| <= MESSAGE_BYTES
    ensures ParseError(EncodeErrorBody(message) + rest, true) == Parsed(message, rest)
  {
    var b: ErrorBody := (ERROR_NAME, (0, (ERROR_NAME, (message, (0, [])))));
    ErrorBodyEncodes(message);
    ErrorBodyRead(b, rest);
  }

  lemma ErrorBodyEncodes(message: seq<byte>)
    ensures EncodeErrorBody(message) == ErrorEncoder()((ERROR_NAME, (0, (ERROR_NAME, (message, (0, []))))))
  {
    var none: seq<(u64, seq<byte>)> := [];
    assert ListEncoder(EncodeBoth(EncodeInt, EncodeString))(none) == EncodeInt(0);
  }

  // ----- a whole reply -----

  /** How a reply ends after the frames it begins with. */
  datatype Reply =
    | Finished(frames: seq<Frame>, rest: seq<byte>)
    | Rejected(frames: seq<Frame>, message: seq<byte>, rest: seq<byte>)
    | Malformed(frames: seq<Frame>)

  function ParseReply(s: seq<byte>, capture: bool, modern: bool, before: seq<Frame>): Reply
    decreases |s|
  {
    match ParseInt(s)
    case Failed => Malformed(before)
    case Parsed(tag, rest) =>
      if tag == STDERR_LAST then Finished(before, rest)
      else if tag == STDERR_ERROR then
        match ParseError(rest, modern)
        case Failed => Malformed(before)
        case Parsed(message, rest') => Rejected(before, message, rest')
      else
        match ParseFrameBody(tag, rest, capture)
        case Failed => Malformed(before)
        case Parsed(f, rest') =>
          BodyCanonical(tag, rest, capture);
          ParseReply(rest', capture, modern, before + [f])
  }

  ghost predicate AllReadable(frames: seq<Frame>, capture: bool) {
    forall i :: 0 <= i < |frames| ==> Readable(frames[i], capture)
  }

  lemma FrameRead(f: Frame, capture: bool, modern: bool, before: seq<Frame>, rest: seq<byte>)
    requires Readable(f, capture)
    ensures ParseReply(EncodeFrame(f) + rest, capture, modern, before) == ParseReply(rest, capture, modern, before + [f])
  {
    Assoc(EncodeInt(TagOf(f)), EncodeFrameBody(f), rest);
    IntRoundTrip(TagOf(f), EncodeFrameBody(f) + rest);
    BodyRoundTrip(f, capture, rest);
  }

  /** Frames are read one after another whatever follows them. */
  lemma {:induction false} FramesRead(frames: seq<Frame>, capture: bool, modern: bool, before: seq<Frame>, rest: seq<byte>)
    requires AllReadable(frames, capture)
    ensures ParseReply(EncodeItems(EncodeFrame, frames) + rest, capture, modern, before) == ParseReply(rest, capture,
            modern, before + frames)
    decreases |frames|
  {
    if frames == [] {
      assert EncodeItems(EncodeFrame, frames) + rest == rest && before + frames == before;
    } else {
      var f, more := frames[0], frames[1..];
      EncodeItemsFirst(EncodeFrame, frames, rest);
      FrameRead(f, capture, modern, before, EncodeItems(EncodeFrame, more) + rest);
      FramesRead(more, capture, modern, before + [f], rest);
      Assoc(before, [f], more);
      assert frames == [f] + more;
    }
  }

  lemma LastRead(before: seq<Frame>, capture: bool, modern: bool, tag: u64, rest: seq<byte>)
    requires tag == STDERR_LAST
    ensures ParseReply(EncodeInt(tag) + rest, capture, modern, before) == Finished(before, rest)
  {
    IntRoundTrip(tag, rest);
  }

  /** Every finite sequence of readable frames followed by Last is read back exactly, and
      the reader stops right behind it. */
  lemma ReplyRoundTrip(frames: seq<Frame>, capture: bool, modern: bool, rest: seq<byte>)
    requires AllReadable(frames, capture)
    ensures ParseReply(EncodeItems(EncodeFrame, frames) + (EncodeInt(STDERR_LAST) + rest), capture, modern,
            []) == Finished(frames, rest)
  {
    FramesRead(frames, capture, modern, [], EncodeInt(STDERR_LAST) + rest);
    LastRead(frames, capture, modern, STDERR_LAST, rest);
    assert [] + frames == frames;
  }

  lemma ErrorRead(before: seq<Frame>, capture: bool, message: seq<byte>, rest: seq<byte>)
    requires |message| <= MESSAGE_BYTES
    ensures ParseReply(EncodeInt(STDERR_ERROR) + (EncodeErrorBody(message) + rest), capture, true, before) ==
            Rejected(before, message, rest)
  {
    IntRoundTrip(STDERR_ERROR, EncodeErrorBody(message) + rest);
    ErrorRoundTrip(message, rest);
  }

  /** Frames followed by a written error are reported as its message, and the reader stops
      right behind it. */
  lemma ErrorReplyRoundTrip(frames: seq<Frame>, capture: bool, message: seq<byte>, rest: seq<byte>)
    requires AllReadable(frames, capture) && |message| <= MESSAGE_BYTES
    ensures ParseReply(EncodeItems(EncodeFrame, frames) + (EncodeInt(STDERR_ERROR) + (EncodeErrorBody(message) + rest)),
            capture, true, [])
         == Rejected(frames, message, rest)
  {
    FramesRead(frames, capture, true, [], EncodeInt(STDERR_ERROR) + (EncodeErrorBody(message) + rest));
    ErrorRead(frames, capture, message, rest);
    assert [] + frames == frames;
  }

  /** Nothing else is accepted: a finished reply is the encoding of readable frames and Last. */
  lemma {:induction false} ReplyCanonical(s: seq<byte>, capture: bool, modern: bool, before: seq<Frame>) returns (frames: seq<Frame>)
    requires ParseReply(s, capture, modern, before).Finished?
    ensures var r := ParseReply(s, capture, modern, before);
            && r.frames == before + frames && AllReadable(frames, capture)
            && s == EncodeItems(EncodeFrame, frames) + (EncodeInt(STDERR_LAST) + r.rest)
    decreases |s|
  {
    IntCanonical(s);
    var Parsed(tag, rest) := ParseInt(s);
    if tag == STDERR_LAST {
      frames := [];
      assert before + frames == before;
    } else {
      FrameCanonical(s, capture);
      var Parsed(f, rest') := ParseFrame(s, capture);
      assert ParseReply(s, capture, modern, before) == ParseReply(rest', capture, modern, before + [f]);
      var more := ReplyCanonical(rest', capture, modern, before + [f]);
      frames := Cons(f, more, before, EncodeInt(STDERR_LAST) + ParseReply(s, capture, modern, before).rest, capture);
    }
  }

  lemma Cons(f: Frame, more: seq<Frame>, before: seq<Frame>, rest: seq<byte>, capture: bool) returns (frames: seq<Frame>)
    requires Readable(f, capture) && AllReadable(more, capture)
    ensures AllReadable(frames, capture) && before + frames == before + [f] + more
    ensures EncodeItems(EncodeFrame, frames) + rest == EncodeFrame(f) + (EncodeItems(EncodeFrame, more) + rest)
  {
    frames := [f] + more;
    assert frames[0] == f && frames[1..] == more;
    EncodeItemsFirst(EncodeFrame, frames, rest);
  }

  lemma ReplyExtends(p: seq<byte>, t: seq<byte>, capture: bool, modern: bool)
    requires ParseReply(p, capture, modern, []).Finished?
    ensures var r := ParseReply(p, capture, modern, []);
            ParseReply(p + t, capture, modern, []) == Finished(r.frames, r.rest + t)
  {
    var r := ParseReply(p, capture, modern, []).rest;
    var fs := ReplyCanonical(p, capture, modern, []);
    var items := EncodeItems(EncodeFrame, fs);
    Assoc(items, EncodeInt(STDERR_LAST) + r, t);
    Assoc(EncodeInt(STDERR_LAST), r, t);
    ReplyRoundTrip(fs, capture, modern, r + t);
  }

  /** No strict prefix of a complete reply is accepted. */
  lemma NoPrefixFinishes(frames: seq<Frame>, capture: bool, modern: bool, k: nat)
    requires AllReadable(frames, capture)
    requires k < |EncodeItems(EncodeFrame, frames) + EncodeInt(STDERR_LAST)|
    ensures !ParseReply((EncodeItems(EncodeFrame, frames) + EncodeInt(STDERR_LAST))[..k], capture, modern, []).Finished?
  {
    var whole := EncodeItems(EncodeFrame, frames) + EncodeInt(STDERR_LAST);
    var p, t := whole[..k], whole[k..];
    assert whole == EncodeItems(EncodeFrame, frames) + (EncodeInt(STDERR_LAST) + []);
    ReplyRoundTrip(frames, capture, modern, []);
    assert whole == p + t;
    if ParseReply(p, capture, modern, []).Finished? {
      ReplyExtends(p, t, capture, modern);
      assert false;
    }
  }

  /** The writer's limits are within both readers' limits. */
  lemma ValidIsReadable(f: Frame, capture: bool)
    requires ValidFrame(f) && !f.Last?
    ensures Readable(f, capture)
  {
  }

  // ----- what the client forwards -----

  /** A build-log line: the first field of a type-101 result, if it is a string. */
  function LogLine(fields: seq<Field>): Option<seq<byte>> {
    if fields != [] && fields[0].Text? then Some(fields[0].text) else None
  }

  /** `Next` messages as they are, build-log lines with a newline, nothing else. */
  function Log(f: Frame): seq<seq<byte>> {
    match f
    case Next(m) => [m]
    case Result(_, k, fields) =>
      if k == BUILD_LOG_LINE && LogLine(fields).Some? then [LogLine(fields).value + [10]] else []
    case _ => []
  }

  function Logs(frames: seq<Frame>): seq<seq<byte>> {
    if frames == [] then [] else Logs(frames[..|frames| - 1]) + Log(frames[|frames| - 1])
  }

  lemma LogsAppend(frames: seq<Frame>, f: Frame)
    ensures Logs(frames + [f]) == Logs(frames) + Log(f)
  {
    assert (frames + [f])[..|frames|] == frames;
  }

  // ----- the imperative readers and writers -----

  function ParseLine(s: seq<byte>, capture: bool): Parsed<Option<seq<byte>>> {
    match ParseFields(s, if capture then MESSAGE_BYTES else FIELD_BYTES)
    case Failed => Failed
    case Parsed(fields, rest) => Parsed(if capture then LogLine(fields) else None, rest)
  }

  method ReadField(reader: Reader, limit: nat) returns (r: Basics.Result<Field>)
    requires !reader.framed
    modifies reader
    ensures Conforms(old(reader.View()), FieldGrammar(limit)(old(reader.input)), r, reader.View())
  {
    Unsealed(FieldParser(limit));
    var tag := reader.ReadInteger();
    if tag.Failure? {
      return Failure;
    }
    if tag.value == 0 {
      var number := reader.ReadInteger();
      return if number.Failure? then Failure else Success(Integer(number.value));
    }
    if tag.value == 1 {
      var text := reader.ReadString(limit);
      return if text.Failure? then Failure else Success(Text(text.value));
    }
    return Failure;
  }

  /** The fields still to read after those in `before`. */
  ghost function ParseFrom(first: seq<byte> -> Parsed<Field>, other: seq<byte> -> Parsed<Field>, s: seq<byte>,
          count: nat, before: seq<Field>): Parsed<seq<Field>> {
    if before != [] then ParseItems(other, s, count, before)
    else if count == 0 then Parsed([], s)
    else
      match first(s)
      case Failed => Failed
      case Parsed(f, rest) => ParseItems(other, rest, count - 1, [f])
  }

  lemma ParseFromStep(first: seq<byte> -> Parsed<Field>, other: seq<byte> -> Parsed<Field>, s: seq<byte>, count: nat,
          before: seq<Field>)
    requires count > 0
    ensures var next := if before == [] then first(s) else other(s);
            ParseFrom(first, other, s, count, before) ==
            if next.Failed? then Failed else ParseFrom(first, other, next.rest, count - 1, before + [next.value])
  {
    var next := if before == [] then first(s) else other(s);
    if next.Parsed? {
      assert |before + [next.value]| > 0;
      if before == [] { assert before + [next.value] == [next.value]; }
    }
  }

  lemma ParseFromMeans(s: seq<byte>, count: nat, first: nat)
    ensures ParseFrom(FieldGrammar(first), FieldGrammar(FIELD_BYTES), s, count, []) == ParseCounted(s, count, first)
  {
    Unsealed(FieldParser(first));
    Unsealed(FieldParser(FIELD_BYTES));
  }

  method ReadCountedFields(reader: Reader, count: nat, capture: bool) returns (r: Basics.Result<Option<seq<byte>>>)
    requires !reader.framed
    modifies reader
    ensures var parsed := ParseCounted(old(reader.input), count, if capture then MESSAGE_BYTES else FIELD_BYTES);
            && (r.Success? <==> parsed.Parsed?)
            && (r.Success? ==> reader.input == parsed.rest && r.value == if capture then LogLine(parsed.value) else None)
  {
    ghost var start, firstLimit := reader.input, if capture then MESSAGE_BYTES else FIELD_BYTES;
    ghost var first, other := FieldGrammar(firstLimit), FieldGrammar(FIELD_BYTES);
    ghost var fields: seq<Field> := [];
    var captured: Option<seq<byte>> := None;
    var index := 0;
    while index < count
      invariant 0 <= index <= count && index == |fields|
      invariant ParseFrom(first, other, reader.input, count - index, fields) == ParseFrom(first, other, start, count, [])
      invariant captured == if capture then LogLine(fields) else None
    {
      ParseFromStep(first, other, reader.input, count - index, fields);
      var field := ReadField(reader, if capture && index == 0 then MESSAGE_BYTES else FIELD_BYTES);
      if field.Failure? {
        break;
      }
      if capture && index == 0 && field.value.Text? {
        captured := Some(field.value.text);
      }
      fields := fields + [field.value];
      index := index + 1;
    }
    ParseFromMeans(start, count, firstLimit);
    return if index < count then Failure else Success(captured);
  }

  method ReadActivityFields(reader: Reader, capture: bool) returns (r: Basics.Result<Option<seq<byte>>>)
    requires !reader.framed
    modifies reader
    ensures Conforms(old(reader.View()), ParseLine(old(reader.input), capture), r, reader.View())
  {
    var count := reader.ReadInteger();
    if count.Failure? || count.value > FRAME_FIELDS {
      return Failure;
    }
    r := ReadCountedFields(reader, count.value, capture);
  }

  method ReadStart(reader: Reader) returns (ok: bool)
    requires !reader.framed
    modifies reader
    ensures ok <==> StartParser()(old(reader.input)).Parsed?
    ensures ok ==> reader.input == StartParser()(old(reader.input)).rest
  {
    ghost var p5 := Both(FieldsParser(FIELD_BYTES), ParseInt);
    ghost var p4 := Both(StringParser(MESSAGE_BYTES), p5);
    ghost var p3 := Both(ParseInt, p4);
    ghost var p2 := Both(ParseInt, p3);
    BothStep(ParseInt, p2, reader.input);
    var id := reader.ReadInteger();
    if id.Failure? { return false; }
    BothStep(ParseInt, p3, reader.input);
    var verbosity := reader.ReadInteger();
    if verbosity.Failure? { return false; }
    BothStep(ParseInt, p4, reader.input);
    var kind := reader.ReadInteger();
    if kind.Failure? { return false; }
    BothStep(StringParser(MESSAGE_BYTES), p5, reader.input);
    var message := reader.ReadString(MESSAGE_BYTES);
    if message.Failure? { return false; }
    BothStep(FieldsParser(FIELD_BYTES), ParseInt, reader.input);
    var fields := ReadActivityFields(reader, false);
    if fields.Failure? { return false; }
    var parent := reader.ReadInteger();
    return parent.Success?;
  }

  /** A type-101 result read for its log line, which then ends in a newline. */
  method ReadResult(reader: Reader, capture: bool) returns (ok: bool, log: seq<seq<byte>>)
    requires !reader.framed
    modifies reader
    ensures var parsed := ResultParser(capture)(old(reader.input));
            && (ok <==> parsed.Parsed?)
            && (ok ==> reader.input == parsed.rest
                       && log == if capture then Log(Frame.Result(parsed.value.0, parsed.value.1.0, parsed.value.1.1)) else [])
  {
    log := [];
    BothStep(ParseInt, Then(ParseInt, ResultFields(capture)), reader.input);
    var id := reader.ReadInteger();
    if id.Failure? { return false, []; }
    var kind := reader.ReadInteger();
    if kind.Failure? { return false, []; }
    assert ResultFields(capture)(kind.value)(reader.input) == ParseFields(reader.input, FirstLimit(capture)(kind.value));
    ok, log := ReadResultFields(reader, capture && kind.value == BUILD_LOG_LINE);
  }

  /** The fields of a result and, where captured, their line. */
  method ReadResultFields(reader: Reader, capture: bool) returns (ok: bool, log: seq<seq<byte>>)
    requires !reader.framed
    modifies reader
    ensures var parsed := ParseFields(old(reader.input), if capture then MESSAGE_BYTES else FIELD_BYTES);
            && (ok <==> parsed.Parsed?)
            && (ok ==> reader.input == parsed.rest && log == if capture
                    && LogLine(parsed.value).Some? then [LogLine(parsed.value).value + [10]] else [])
  {
    log := [];
    var line := ReadActivityFields(reader, capture);
    if line.Failure? { return false, []; }
    if line.value.Some? {
      log := [line.value.value + [10]];
    }
    return true, log;
  }

  method ReadErrorMessage(reader: Reader, modern: bool) returns (r: Basics.Result<seq<byte>>)
    requires !reader.framed
    modifies reader
    ensures Conforms(old(reader.View()), ParseError(old(reader.input), modern), r, reader.View())
  {
    if !modern {
      BothStep(StringParser(MESSAGE_BYTES), ParseInt, reader.input);
      var text := reader.ReadString(MESSAGE_BYTES);
      if text.Failure? { return Failure; }
      var status := reader.ReadInteger();
      return if status.Failure? then Failure else text;
    }
    ghost var p5 := ListParser(TraceParser(), FRAME_FIELDS);
    ghost var p4 := Both(ParseInt, p5);
    ghost var p3 := Both(StringParser(MESSAGE_BYTES), p4);
    ghost var p2 := Both(StringParser(256), p3);
    ghost var p1 := Both(ParseInt, p2);
    BothStep(StringParser(256), p1, reader.input);
    var kind := reader.ReadString(256);
    if kind.Failure? { return Failure; }
    BothStep(ParseInt, p2, reader.input);
    var level := reader.ReadInteger();
    if level.Failure? { return Failure; }
    BothStep(StringParser(256), p3, reader.input);
    var name := reader.ReadString(256);
    if name.Failure? { return Failure; }
    BothStep(StringParser(MESSAGE_BYTES), p4, reader.input);
    var message := reader.ReadString(MESSAGE_BYTES);
    if message.Failure? { return Failure; }
    BothStep(ParseInt, p5, reader.input);
    var position := reader.ReadInteger();
    if position.Failure? { return Failure; }
    var traces := ReadTraces(reader);
    return if traces then message else Failure;
  }

  ghost function TraceGrammar(): seq<byte> -> Parsed<(u64, seq<byte>)> {
    Sealed(TraceParser())
  }

  method ReadTrace(reader: Reader) returns (r: Basics.Result<(u64, seq<byte>)>)
    requires !reader.framed
    modifies reader
    ensures Conforms(old(reader.View()), TraceGrammar()(old(reader.input)), r, reader.View())
  {
    Unsealed(TraceParser());
    BothStep(ParseInt, StringParser(MESSAGE_BYTES), reader.input);
    var position := reader.ReadInteger();
    if position.Failure? { return Failure; }
    var hint := reader.ReadString(MESSAGE_BYTES);
    if hint.Failure? { return Failure; }
    return Success((position.value, hint.value));
  }

  method ReadTraces(reader: Reader) returns (ok: bool)
    requires !reader.framed
    modifies reader
    ensures var parsed := ParseList(TraceParser(), old(reader.input), FRAME_FIELDS);
            (ok <==> parsed.Parsed?) && (ok ==> reader.input == parsed.rest)
  {
    Unsealed(TraceParser());
    var count := reader.ReadInteger();
    if count.Failure? || count.value > FRAME_FIELDS { return false; }
    ok := ReadCountedTraces(reader, count.value);
  }

  method ReadCountedTraces(reader: Reader, count: nat) returns (ok: bool)
    requires !reader.framed
    modifies reader
    ensures var parsed := ParseItems(TraceGrammar(), old(reader.input), count, []);
            (ok <==> parsed.Parsed?) && (ok ==> reader.input == parsed.rest)
  {
    ghost var start, traces := reader.input, [];
    var i := 0;
    while i < count
      invariant 0 <= i <= count
      invariant ParseItems(TraceGrammar(), reader.input, count - i, traces) == ParseItems(TraceGrammar(), start, count, [])
    {
      ItemsStep(TraceGrammar(), reader.input, count - i, traces);
      var trace := ReadTrace(reader);
      if trace.Failure? { return false; }
      traces := traces + [trace.value];
      i := i + 1;
    }
    return true;
  }

  datatype Outcome = Accepted | Refused(message: seq<byte>) | Invalid

  /** `read_build_operation_frames` when `capture`, else `read_operation_frames`: frames up
      to Last or an error, forwarding the log lines on the way. */
  method ReadReply(reader: Reader, capture: bool, modern: bool) returns (r: Outcome, logs: seq<seq<byte>>)
    requires !reader.framed
    modifies reader
    ensures match ParseReply(old(reader.input), capture, modern, [])
            case Finished(frames, rest) => r == Accepted && reader.input == rest && logs == if capture then Logs(frames) else []
            case Rejected(frames, message, rest) =>
              r == Refused(message) && reader.input == rest && logs == if capture then Logs(frames) else []
            case Malformed(frames) => r == Invalid && logs == if capture then Logs(frames) else []
  {
    logs := [];
    ghost var frames: seq<Frame> := [];
    while true
      invariant ParseReply(reader.input, capture, modern, frames) == ParseReply(old(reader.input), capture, modern, [])
      invariant logs == if capture then Logs(frames) else []
      decreases |reader.input|
    {
      var tag := reader.ReadInteger();
      if tag.Failure? {
        return Invalid, logs;
      }
      if tag.value == STDERR_LAST {
        return Accepted, logs;
      }
      if tag.value == STDERR_ERROR {
        var message := ReadErrorMessage(reader, modern);
        return (if message.Failure? then Invalid else Refused(message.value)), logs;
      }
      ghost var parsed := ParseFrameBody(tag.value, reader.input, capture);
      ghost var body := reader.input;
      var ok, log := ReadFrameBody(reader, tag.value, capture);
      if !ok {
        return Invalid, logs;
      }
      BodyCanonical(tag.value, body, capture);
      LogsAppend(frames, parsed.value);
      logs := logs + log;
      frames := frames + [parsed.value];
    }
  }

  method ReadFrameBody(reader: Reader, tag: u64, capture: bool) returns (ok: bool, log: seq<seq<byte>>)
    requires !reader.framed
    modifies reader
    ensures var parsed := ParseFrameBody(tag, old(reader.input), capture);
            && (ok <==> parsed.Parsed?)
            && (ok ==> reader.input == parsed.rest && log == if capture then Log(parsed.value) else [])
  {
    ok, log := false, [];
    if tag == STDERR_NEXT {
      var message := reader.ReadString(MESSAGE_BYTES);
      if message.Success? {
        return true, if capture then [message.value] else [];
      }
    } else if tag == STDERR_START_ACTIVITY {
      ok := ReadStart(reader);
    } else if tag == STDERR_STOP_ACTIVITY {
      var id := reader.ReadInteger();
      ok := id.Success?;
    } else if tag == STDERR_RESULT {
      ok, log := ReadResult(reader, capture);
    }
  }

  method WriteFields(out: seq<byte>, fields: seq<Field>) returns (r: seq<byte>)
    ensures r == out + EncodeFields(fields)
  {
    r := WriteList(out, EncodeField, fields);
  }

  method WriteStart(out: seq<byte>, f: Frame) returns (r: seq<byte>)
    requires f.StartActivity?
    ensures r == out + EncodeFrame(f)
  {
    ghost var e5 := EncodeFields(f.fields) + EncodeInt(f.parent);
    ghost var e4 := EncodeString(f.message) + e5;
    ghost var e3 := EncodeInt(f.kind) + e4;
    ghost var e2 := EncodeInt(f.verbosity) + e3;
    ghost var e1 := EncodeInt(f.id) + e2;
    StartEncodes(f);
    r := out + EncodeInt(STDERR_START_ACTIVITY);
    Assoc(out, EncodeInt(STDERR_START_ACTIVITY), e1);
    Assoc(r, EncodeInt(f.id), e2);
    r := r + EncodeInt(f.id);
    Assoc(r, EncodeInt(f.verbosity), e3);
    r := r + EncodeInt(f.verbosity);
    Assoc(r, EncodeInt(f.kind), e4);
    r := r + EncodeInt(f.kind);
    Assoc(r, EncodeString(f.message), e5);
    r := r + EncodeString(f.message);
    Assoc(r, EncodeFields(f.fields), EncodeInt(f.parent));
    r := WriteFields(r, f.fields);
    r := r + EncodeInt(f.parent);
  }

  lemma StartEncodes(f: Frame)
    requires f.StartActivity?
    ensures EncodeFrameBody(f) ==
            EncodeInt(f.id) + (EncodeInt(f.verbosity) + (EncodeInt(f.kind)
            + (EncodeString(f.message) + (EncodeFields(f.fields) + EncodeInt(f.parent)))))
  {
  }

  method WriteResult(out: seq<byte>, f: Frame) returns (r: seq<byte>)
    requires f.Result?
    ensures r == out + EncodeFrame(f)
  {
    ghost var e2 := EncodeInt(f.kind) + EncodeFields(f.fields);
    ghost var e1 := EncodeInt(f.id) + e2;
    assert EncodeFrameBody(f) == e1;
    r := out + EncodeInt(STDERR_RESULT);
    Assoc(out, EncodeInt(STDERR_RESULT), e1);
    Assoc(r, EncodeInt(f.id), e2);
    r := r + EncodeInt(f.id);
    Assoc(r, EncodeInt(f.kind), EncodeFields(f.fields));
    r := r + EncodeInt(f.kind);
    r := WriteFields(r, f.fields);
  }

  /** `write_stderr_frame`: refuses frames over the limits, else appends the encoding. */
  method WriteFrame(out: seq<byte>, f: Frame) returns (ok: bool, r: seq<byte>)
    ensures ok <==> ValidFrame(f)
    ensures r == if ok then out + EncodeFrame(f) else out
  {
    if !ValidFrame(f) {
      return false, out;
    }
    ok := true;
    match f
    case Next(message) =>
      Assoc(out, EncodeInt(STDERR_NEXT), EncodeString(message));
      r := out + EncodeInt(STDERR_NEXT) + EncodeString(message);
    case StopActivity(id) =>
      Assoc(out, EncodeInt(STDERR_STOP_ACTIVITY), EncodeInt(id));
      r := out + EncodeInt(STDERR_STOP_ACTIVITY) + EncodeInt(id);
    case StartActivity(_, _, _, _, _, _) => r := WriteStart(out, f);
    case Result(_, _, _) => r := WriteResult(out, f);
    case Last =>
      assert EncodeFrame(f) == EncodeInt(STDERR_LAST);
      r := out + EncodeInt(STDERR_LAST);
  }

  ghost predicate AllValidFrames(frames: seq<Frame>) {
    forall i :: 0 <= i < |frames| ==> ValidFrame(frames[i])
  }

  ghost function FrameBytes(): Frame -> seq<byte> {
    Sealed(EncodeFrame)
  }

  ghost function Written(out: seq<byte>, frames: seq<Frame>): seq<byte> {
    out + EncodeItems(FrameBytes(), frames)
  }

  lemma NothingWritten(out: seq<byte>)
    ensures Written(out, []) == out
  {
  }

  lemma WrittenNext(out: seq<byte>, before: seq<Frame>, f: Frame)
    ensures Written(out, before) + FrameBytes()(f) == Written(out, before + [f])
    ensures AllValidFrames(before) && ValidFrame(f) ==> AllValidFrames(before + [f])
  {
    Assoc(out, EncodeItems(FrameBytes(), before), FrameBytes()(f));
    EncodeItemsAppend(FrameBytes(), before, f);
  }

  method WriteNext(out: seq<byte>, f: Frame) returns (ok: bool, r: seq<byte>)
    ensures ok <==> ValidFrame(f)
    ensures ok ==> r == out + FrameBytes()(f)
  {
    Unsealed(EncodeFrame);
    ok, r := WriteFrame(out, f);
  }

  lemma LastEncodes()
    ensures EncodeFrame(Last) == EncodeInt(STDERR_LAST)
  {
  }

  /** A server that writes frames, until one is over the limits. */
  method WriteFrames(out: seq<byte>, frames: seq<Frame>) returns (ok: bool, r: seq<byte>)
    ensures ok <==> AllValidFrames(frames)
    ensures ok ==> r == Written(out, frames)
  {
    ok, r := true, out;
    ghost var done: seq<Frame> := [];
    var i := 0;
    NothingWritten(out);
    while i < |frames|
      invariant ok && 0 <= i <= |frames| && done == frames[..i]
      invariant AllValidFrames(done) && r == Written(out, done)
    {
      ok, r := WriteNext(r, frames[i]);
      if !ok {
        return;
      }
      WrittenNext(out, done, frames[i]);
      done, i := done + [frames[i]], i + 1;
    }
    assert done == frames;
  }

  /** Valid frames and Last, as written, are read back. */
  lemma WrittenReplyFinishes(frames: seq<Frame>, capture: bool, modern: bool, rest: seq<byte>)
    requires AllValidFrames(frames) && Last !in frames
    ensures ParseReply(Written([], frames) + EncodeFrame(Last) + rest, capture, modern, []) == Finished(frames, rest)
  {
    forall i | 0 <= i < |frames| ensures Readable(frames[i], capture) {
      ValidIsReadable(frames[i], capture);
    }
    Unsealed(EncodeFrame);
    var items := EncodeItems(EncodeFrame, frames);
    LastEncodes();
    assert [] + items == items;
    Assoc(items, EncodeInt(STDERR_LAST), rest);
    ReplyRoundTrip(frames, capture, modern, rest);
  }

  /** From the server's frames to the client's log: what is written is read to its end, what
      follows is left, and the log lines are those of the frames, in order. */
  method Relay(frames: seq<Frame>, rest: seq<byte>, capture: bool, modern: bool)
    returns (ok: bool, r: Outcome, logs: seq<seq<byte>>, left: seq<byte>)
    requires Last !in frames
    ensures ok <==> AllValidFrames(frames)
    ensures ok ==> r == Accepted && left == rest && logs == if capture then Logs(frames) else []
  {
    var bytes;
    ok, bytes := WriteFrames([], frames);
    if !ok {
      return false, Invalid, [], rest;
    }
    ok, bytes := WriteFrame(bytes, Last);
    WrittenReplyFinishes(frames, capture, modern, rest);
    var reader := new Reader.Plain(bytes + rest);
    r, logs := ReadReply(reader, capture, modern);
    left := reader.input;
  }

  /** `write_worker_error`: refuses a message over the limit, else appends the error frame. */
  method WriteError(out: seq<byte>, message: seq<byte>) returns (ok: bool, r: seq<byte>)
    ensures ok <==> |message| <= 16384
    ensures var name := EncodeString([69, 114, 114, 111, 114]);
            r == if ok then out + (EncodeInt(0x6378_7470) + (name + (EncodeInt(0) + (name + (EncodeString(message)
                            + (EncodeInt(0) + EncodeInt(0))))))) else out
  {
    if |message| > MESSAGE_BYTES {
      return false, out;
    }
    ghost var name, zero, text := EncodeString(ERROR_NAME), EncodeInt(0), EncodeString(message);
    r := out + EncodeInt(STDERR_ERROR);
    Assoc(out, EncodeInt(STDERR_ERROR), EncodeErrorBody(message));
    Assoc(r, name, zero + (name + (text + (zero + zero))));
    r := r + EncodeString(ERROR_NAME);
    Assoc(r, zero, name + (text + (zero + zero)));
    r := r + EncodeInt(0);
    Assoc(r, name, text + (zero + zero));
    r := r + EncodeString(ERROR_NAME);
    Assoc(r, text, zero + zero);
    r := r + EncodeString(message);
    Assoc(r, zero, zero);
    r := r + EncodeInt(0);
    r := r + EncodeInt(0);
    ok := true;
  }

  // ----- the wire and the log, spelled out -----

  /** The bytes of each frame. */
  lemma FramesOnWire(id: u64, verbosity: u64, kind: u64, parent: u64, message: seq<byte>, fields: seq<Field>)
    ensures EncodeFrame(Next(message)) == EncodeInt(0x6f6c_6d67) + EncodeString(message)
    ensures EncodeFrame(StopActivity(id)) == EncodeInt(0x5354_4f50) + EncodeInt(id)
    ensures EncodeFrame(Frame.Result(id, kind, fields)) ==
            EncodeInt(0x5253_4c54) + (EncodeInt(id) + (EncodeInt(kind) + EncodeList(EncodeField, fields)))
    ensures EncodeFrame(StartActivity(id, verbosity, kind, message, fields, parent)) ==
            EncodeInt(0x5354_5254) + (EncodeInt(id) + (EncodeInt(verbosity) + (EncodeInt(kind)
            + (EncodeString(message) + (EncodeList(EncodeField, fields) + EncodeInt(parent))))))
    ensures EncodeFrame(Last) == EncodeInt(0x616c_7473)
  {
    LastEncodes();
    StartEncodes(StartActivity(id, verbosity, kind, message, fields, parent));
    ResultEncodes(id, kind, fields);
  }

  lemma ResultEncodes(id: u64, kind: u64, fields: seq<Field>)
    ensures EncodeFrameBody(Frame.Result(id, kind, fields)) == EncodeInt(id) + (EncodeInt(kind) + EncodeFields(fields))
  {
  }

  lemma FieldOnWire(n: u64, text: seq<byte>)
    ensures EncodeField(Integer(n)) == EncodeInt(0) + EncodeInt(n)
    ensures EncodeField(Text(text)) == EncodeInt(1) + EncodeString(text)
  {
  }

  /** The limits of what the client reads: 16384 bytes of a message and, where it looks for
      build-log lines, of the first field of a result of type 101; 4096 of any other field, of
      which there are at most 64. */
  lemma ReadableIff(id: u64, verbosity: u64, kind: u64, parent: u64, message: seq<byte>, fields: seq<Field>, capture: bool)
    ensures Readable(Next(message), capture) <==> |message| <= 16384
    ensures Readable(StartActivity(id, verbosity, kind, message, fields, parent), capture) <==>
            |message| <= 16384 && |fields| <= 64 && forall i :: 0 <= i < |fields| && fields[i].Text? ==> |fields[i].text| <= 4096
    ensures Readable(Frame.Result(id, kind, fields), capture) <==>
            |fields| <= 64 && forall i :: 0 <= i < |fields| && fields[i].Text? ==>
              |fields[i].text| <= if i == 0 && capture && kind == 101 then 16384 else 4096
  {
    assert FieldsWithin(FIELD_BYTES)(fields) == (|fields| <= FRAME_FIELDS && AllWithin(fields, FIELD_BYTES));
    var first := FirstLimit(capture)(kind);
    assert first == if capture && kind == 101 then 16384 else 4096;
    assert FieldsWithin(first)(fields) == (|fields| <= FRAME_FIELDS && AllWithin(fields, first));
  }

  /** One frame from the server to the client's log.  A message is forwarded as it is.  A
      result of type 101 whose first field is a string is forwarded as that string and a
      newline.  Nothing else is forwarded. */
  method RelayFrame(f: Frame, rest: seq<byte>, modern: bool) returns (logs: seq<seq<byte>>)
    requires !f.Last? && (f.Next? || f.StartActivity? ==> |f.message| <= 16384)
    requires f.StartActivity? || f.Result? ==>
               |f.fields| <= 64 && forall i :: 0 <= i < |f.fields| && f.fields[i].Text? ==> |f.fields[i].text| <= 4096
    ensures f.Next? ==> logs == [f.message]
    ensures f.Result? && f.kind == 101 && f.fields != [] && f.fields[0].Text? ==> logs == [f.fields[0].text + [10]]
    ensures f.Result? && (f.kind != 101 || f.fields == [] || f.fields[0].Integer?) ==> logs == []
    ensures f.StartActivity? || f.StopActivity? ==> logs == []
  {
    assert ValidFrame(f);
    var frames := [f];
    var ok, outcome, left;
    ok, outcome, logs, left := Relay(frames, rest, true, modern);
    LogsAppend([], f);
    assert [] + [f] == frames;
  }

  lemma EndsInLast<T>(s: seq<T>)
    requires s != []
    ensures s == s[..|s| - 1] + [s[|s| - 1]]
  {
  }

  /** The log of several frames is what each of them gives, in order. */
  lemma {:induction false} LogsConcat(a: seq<Frame>, b: seq<Frame>)
    ensures Logs(a + b) == Logs(a) + Logs(b)
    decreases |b|
  {
    if b == [] {
      assert a + b == a;
    } else {
      var init, last := b[..|b| - 1], b[|b| - 1];
      LogsConcat(a, init);
      EndsInLast(b);
      Assoc(a, init, [last]);
      LogsAppend(a + init, last);
      LogsAppend(init, last);
      Assoc(Logs(a), Logs(init), Log(last));
    }
  }

  /** An error since protocol 1.26, whatever its kind, level, name, position and traces. */
  lemma ErrorMessageRead(kind: seq<byte>, level: u64, name: seq<byte>, message: seq<byte>, position: u64,
                         traces: seq<(u64, seq<byte>)>, capture: bool, rest: seq<byte>)
    requires |kind| <= 256 && |name| <= 256 && |message| <= 16384 && |traces| <= 64
    requires forall i :: 0 <= i < |traces| ==> |traces[i].1| <= 16384
    ensures ParseReply(EncodeInt(0x6378_7470) + (ErrorBytes(kind, level, name, message, position, traces) + rest), capture, true, []) ==
            Rejected([], message, rest)
  {
    var b: ErrorBody := (kind, (level, (name, (message, (position, traces)))));
    TracesValid(traces);
    assert ValidBoth(AnyInt, ValidList(TraceValid(), FRAME_FIELDS))(b.1.1.1.1);
    assert ValidBoth(AtMostBytes(MESSAGE_BYTES), ValidBoth(AnyInt, ValidList(TraceValid(), FRAME_FIELDS)))(b.1.1.1);
    ErrorBodyRead(b, rest);
    ErrorBytesAre(kind, level, name, message, position, traces);
    IntRoundTrip(STDERR_ERROR, ErrorEncoder()(b) + rest);
  }

  function ErrorBytes(kind: seq<byte>, level: u64, name: seq<byte>, message: seq<byte>, position: u64,
                      traces: seq<(u64, seq<byte>)>): seq<byte> {
    EncodeString(kind) + (EncodeInt(level) + (EncodeString(name) + (EncodeString(message) + (EncodeInt(position)
    + EncodeList(EncodeTrace, traces)))))
  }

  function EncodeTrace(trace: (u64, seq<byte>)): seq<byte> {
    EncodeInt(trace.0) + EncodeString(trace.1)
  }

  lemma {:induction false} TracesEncode(traces: seq<(u64, seq<byte>)>)
    ensures EncodeItems(EncodeTrace, traces) == EncodeItems(EncodeBoth(EncodeInt, EncodeString), traces)
  {
    if traces != [] {
      TracesEncode(traces[1..]);
      assert EncodeBoth(EncodeInt, EncodeString)(traces[0]) == EncodeTrace(traces[0]);
    }
  }

  lemma ErrorBytesAre(kind: seq<byte>, level: u64, name: seq<byte>, message: seq<byte>, position: u64, traces: seq<(u64, seq<byte>)>)
    ensures ErrorEncoder()((kind, (level, (name, (message, (position, traces)))))) ==
            ErrorBytes(kind, level, name, message, position, traces)
  {
    TracesEncode(traces);
  }

  lemma TracesValid(traces: seq<(u64, seq<byte>)>)
    requires |traces| <= 64 && forall i :: 0 <= i < |traces| ==> |traces[i].1| <= 16384
    ensures ValidList(TraceValid(), FRAME_FIELDS)(traces)
  {
    forall i | 0 <= i < |traces| ensures TraceValid()(traces[i]) {
    }
  }

  /** The older error: a message and a status. */
  lemma OldErrorRead(message: seq<byte>, status: u64, capture: bool, rest: seq<byte>)
    requires |message| <= 16384
    ensures ParseReply(EncodeInt(0x6378_7470) + (EncodeString(message) + (EncodeInt(status) + rest)), capture, false, []) ==
            Rejected([], message, rest)
  {
    IntRoundTrip(STDERR_ERROR, EncodeString(message) + (EncodeInt(status) + rest));
    StringRoundTrip(message, MESSAGE_BYTES, EncodeInt(status) + rest);
    IntRoundTrip(status, rest);
    BothStep(StringParser(MESSAGE_BYTES), ParseInt, EncodeString(message) + (EncodeInt(status) + rest));
  }


  /** What the server writes: messages of at most 16384 bytes and at most 64 fields of at most
      4096. */
  lemma WritableIff(f: Frame)
    ensures ValidFrame(f) <==>
            && (f.Next? || f.StartActivity? ==> |f.message| <= 16384)
            && (f.StartActivity? || f.Result? ==>
                  |f.fields| <= 64 && forall i :: 0 <= i < |f.fields| && f.fields[i].Text? ==> |f.fields[i].text| <= 4096)
  {
    if f.StartActivity? || f.Result? {
      assert ValidFields(f.fields) <==>
             |f.fields| <= 64 && forall i :: 0 <= i < |f.fields| && f.fields[i].Text? ==> |f.fields[i].text| <= 4096;
    }
  }

  /** An error's parts within the client's limits. */
  ghost predicate ErrorInLimits(kind: seq<byte>, name: seq<byte>, message: seq<byte>, traces: seq<(u64, seq<byte>)>) {
    && |kind| <= 256 && |name| <= 256 && |message| <= 16384
    && |traces| <= 64 && forall i :: 0 <= i < |traces| ==> |traces[i].1| <= 16384
  }

  lemma TracesLimits(traces: seq<(u64, seq<byte>)>)
    ensures ValidList(TraceValid(), FRAME_FIELDS)(traces) <==>
            |traces| <= 64 && forall i :: 0 <= i < |traces| ==> |traces[i].1| <= 16384
  {
    forall i | 0 <= i < |traces| ensures TraceValid()(traces[i]) <==> |traces[i].1| <= 16384 {
    }
  }

  lemma ErrorLimits(b: ErrorBody)
    ensures ErrorValid()(b) <==> ErrorInLimits(b.0, b.1.1.0, b.1.1.1.0, b.1.1.1.1.1)
  {
    TracesLimits(b.1.1.1.1.1);
  }

  ghost predicate ErrorSpells(s: seq<byte>, message: seq<byte>, rest: seq<byte>, kind: seq<byte>, level: u64, name: seq<byte>,
                              position: u64, traces: seq<(u64, seq<byte>)>) {
    ErrorInLimits(kind, name, message, traces) && s == ErrorBytes(kind, level, name, message, position, traces) + rest
  }

  /** Since protocol 1.26 bytes are an error with a message exactly when they are a kind, a level,
      a name, that message, a position and traces, within the limits. */
  lemma ErrorReadIff(s: seq<byte>, message: seq<byte>, rest: seq<byte>)
    ensures ParseError(s, true) == Parsed(message, rest) <==>
            exists kind, level, name, position, traces :: ErrorSpells(s, message, rest, kind, level, name, position, traces)
  {
    if ParseError(s, true) == Parsed(message, rest) {
      ErrorHeard(s, message, rest);
    }
    forall kind, level, name, position, traces | ErrorSpells(s, message, rest, kind, level, name, position, traces)
      ensures ParseError(s, true) == Parsed(message, rest)
    {
      ErrorSpoken(s, message, rest, kind, level, name, position, traces);
    }
  }

  lemma ErrorHeard(s: seq<byte>, message: seq<byte>, rest: seq<byte>)
    requires ParseError(s, true) == Parsed(message, rest)
    ensures exists kind, level, name, position, traces :: ErrorSpells(s, message, rest, kind, level, name, position, traces)
  {
    ErrorInverse();
    InverseWritten(ErrorParser(), ErrorEncoder(), ErrorValid(), s);
    var b := ErrorParser()(s).value;
    ErrorLimits(b);
    ErrorBytesAre(b.0, b.1.0, b.1.1.0, b.1.1.1.0, b.1.1.1.1.0, b.1.1.1.1.1);
    assert ErrorSpells(s, message, rest, b.0, b.1.0, b.1.1.0, b.1.1.1.1.0, b.1.1.1.1.1);
  }

  lemma ErrorSpoken(s: seq<byte>, message: seq<byte>, rest: seq<byte>, kind: seq<byte>, level: u64, name: seq<byte>,
                    position: u64, traces: seq<(u64, seq<byte>)>)
    requires ErrorSpells(s, message, rest, kind, level, name, position, traces)
    ensures ParseError(s, true) == Parsed(message, rest)
  {
    var b: ErrorBody := (kind, (level, (name, (message, (position, traces)))));
    ErrorLimits(b);
    ErrorBytesAre(kind, level, name, message, position, traces);
    ErrorBodyRead(b, rest);
  }

  /** Before, exactly when they are that message, within the limit, and a status. */
  lemma OldErrorReadIff(s: seq<byte>, message: seq<byte>, rest: seq<byte>)
    ensures ParseError(s, false) == Parsed(message, rest) <==>
            |message| <= 16384 && exists status: u64 :: s == EncodeString(message) + (EncodeInt(status) + rest)
  {
    var p := Both(StringParser(MESSAGE_BYTES), ParseInt);
    BothStep(StringParser(MESSAGE_BYTES), ParseInt, s);
    if p(s).Parsed? {
      StringCanonical(s, MESSAGE_BYTES);
      IntCanonical(ParseString(s, MESSAGE_BYTES).rest);
    }
    forall status: u64 | |message| <= 16384 && s == EncodeString(message) + (EncodeInt(status) + rest)
      ensures ParseError(s, false) == Parsed(message, rest)
    {
      StringRoundTrip(message, MESSAGE_BYTES, EncodeInt(status) + rest);
      IntRoundTrip(status, rest);
    }
  }
}
