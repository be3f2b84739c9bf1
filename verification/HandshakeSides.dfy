/** Each side of the handshake alone, against a peer that may say anything: the client gets to
    the log frames, and the server to its welcome, exactly on a well-formed speech. */
module HandshakeSides {
  import opened Bytes
  import opened Wire
  import opened Streams
  import opened Handshake

  lemma ValueIs(s: seq<byte>)
    requires |s| >= 8
    ensures ParseInt(s) == Parsed(Value(s[..8]), s[8..])
  {
    Unsealed(Decoded);
  }

  // ----- lists of strings -----

  /** How far along a list is, so that reading it ends. */
  function StringsRank(t: Handshake.Strings): nat {
    match t
    case Count => 2 * MAXIMUM_FEATURES + 2
    case Length(left, _) => 2 * left + 1
    case Body(left, _, _) => 2 * left
    case _ => 0
  }

  lemma StringsStepRanks(t: Handshake.Strings, chunk: seq<byte>)
    requires |chunk| == StringsNeed(t) && !t.Complete? && !t.Bad? && (t.Body? ==> t.left > 0)
    ensures var t' := StringsStep(t, chunk); StringsRank(t') < StringsRank(t) && (t'.Body? ==> t.Length? && t'.left == t.left)
  {
  }

  /** What is left of the input after the list; nothing where it is malformed or cut short. */
  ghost function Listed(t: Handshake.Strings, s: seq<byte>): Parsed<bool>
    decreases StringsRank(t)
  {
    if t.Complete? then Parsed(true, s)
    else if t.Bad? || |s| < StringsNeed(t) || (t.Body? && t.left == 0) || (t.Length? && t.left == 0) then Failed
    else
      StringsStepRanks(t, s[..StringsNeed(t)]);
      Listed(StringsStep(t, s[..StringsNeed(t)]), s[StringsNeed(t)..])
  }

  function Rest<T>(r: Parsed<T>): Parsed<bool> {
    match r
    case Failed => Failed
    case Parsed(_, rest) => Parsed(true, rest)
  }

  /** The same under a seal. */
  ghost function Reading(): (Handshake.Strings, seq<byte>) -> Parsed<bool> {
    Sealed((t: Handshake.Strings, s: seq<byte>) => Listed(t, s))
  }

  lemma ReadingIs(t: Handshake.Strings, s: seq<byte>)
    ensures Reading()(t, s) == Listed(t, s)
  {
    Unsealed((t: Handshake.Strings, s: seq<byte>) => Listed(t, s));
  }

  lemma BodyIs(left: nat, size: nat, held: nat, s: seq<byte>)
    requires left > 0
    ensures Reading()(Body(left, size, held), s) ==
            var r := ParseBody(s, size);
            if r.Failed? then Failed else if left == 1 then Parsed(true, r.rest) else Reading()(Length(left - 1, held), r.rest)
  {
    ReadingIs(Body(left, size, held), s);
    if left > 1 && ParseBody(s, size).Parsed? {
      ReadingIs(Length(left - 1, held), ParseBody(s, size).rest);
    }
    if |s| >= Padded(size) {
      assert s[..Padded(size)][size..] == s[size..Padded(size)];
    }
  }

  lemma LengthIs(left: nat, held: nat, s: seq<byte>)
    requires left > 0
    ensures Reading()(Length(left, held), s) ==
            var r := ParseInt(s);
            if r.Failed? || r.value > FEATURE_BYTES || held + Padded(r.value) > BUDGET then Failed
            else Reading()(Body(left, r.value, held + Padded(r.value)), r.rest)
  {
    ReadingIs(Length(left, held), s);
    if |s| >= 8 {
      ValueIs(s);
      var size := Value(s[..8]);
      ReadingIs(Body(left, size, held + Padded(size)), s[8..]);
    }
  }

  /** A string in parts: `whole` from its length on, `body` from its body on, `next` behind it. */
  lemma InParts(s: seq<byte>, last: bool, whole: Parsed<bool>, body: Parsed<bool>, next: Parsed<bool>)
    requires ParseInt(s).Failed? || ParseInt(s).value > FEATURE_BYTES ==> whole == Failed
    requires ParseInt(s).Parsed? && ParseInt(s).value <= FEATURE_BYTES ==>
      && whole == body
      && var r := ParseBody(ParseInt(s).rest, ParseInt(s).value);
         body == if r.Failed? then Failed else if last then Parsed(true, r.rest) else next
    ensures var r := ParseString(s, FEATURE_BYTES);
            whole == if r.Failed? then Failed else if last then Parsed(true, r.rest) else next
  {
  }

  lemma ItemIs(left: nat, held: nat, s: seq<byte>)
    requires left > 0 && held + (FEATURE_BYTES + 8) <= BUDGET
    ensures var r := ParseString(s, FEATURE_BYTES);
            Reading()(Length(left, held), s) ==
            if r.Failed? then Failed
            else if left == 1 then Parsed(true, r.rest)
            else Reading()(Length(left - 1, held + Padded(|r.value|)), r.rest)
  {
    LengthIs(left, held, s);
    var whole, body, next := Reading()(Length(left, held), s), Failed, Failed;
    if ParseInt(s).Parsed? && ParseInt(s).value <= FEATURE_BYTES {
      var size, rest := ParseInt(s).value, ParseInt(s).rest;
      var charged := held + Padded(size);
      BodyIs(left, size, charged, rest);
      body := Reading()(Body(left, size, charged), rest);
      if left > 1 && ParseBody(rest, size).Parsed? {
        next := Reading()(Length(left - 1, charged), ParseBody(rest, size).rest);
      }
    }
    InParts(s, left == 1, whole, body, next);
  }

  lemma LeftOver(left: nat, held: nat, each: nat, used: nat, all: nat)
    requires left > 0 && held + left * each <= all && used <= each
    ensures held + each <= all && held + used + (left - 1) * each <= all
  {
    assert left * each == (left - 1) * each + each;
    assert (left - 1) * each >= 0;
  }

  /** The budget never refuses a list within the limits. */
  lemma {:induction false} ItemsAre(left: nat, held: nat, s: seq<byte>, before: seq<seq<byte>>)
    requires left > 0 && held + left * (FEATURE_BYTES + 8) <= BUDGET
    ensures Reading()(Length(left, held), s) == Rest(ParseItems(StringParser(FEATURE_BYTES), s, left, before))
    decreases left
  {
    LeftOver(left, held, FEATURE_BYTES + 8, 0, BUDGET);
    ItemIs(left, held, s);
    var r := ParseString(s, FEATURE_BYTES);
    if r.Parsed? && left > 1 {
      LeftOver(left, held, FEATURE_BYTES + 8, Padded(|r.value|), BUDGET);
      ItemsAre(left - 1, held + Padded(|r.value|), r.rest, before + [r.value]);
    }
  }

  lemma CountIs(s: seq<byte>)
    ensures Reading()(Count, s) ==
            var r := ParseInt(s);
            if r.Failed? || r.value > MAXIMUM_FEATURES then Failed
            else if r.value == 0 then Parsed(true, r.rest)
            else Reading()(Length(r.value, r.value * STRING_SIZE), r.rest)
  {
    ReadingIs(Count, s);
    if |s| >= 8 {
      ValueIs(s);
      ReadingIs(Length(Value(s[..8]), Value(s[..8]) * STRING_SIZE), s[8..]);
    }
  }

  lemma ListIs(s: seq<byte>)
    ensures Listed(Count, s) == Rest(ParseList(StringParser(FEATURE_BYTES), s, MAXIMUM_FEATURES))
  {
    ReadingIs(Count, s);
    CountIs(s);
    var r := ParseInt(s);
    if r.Parsed? && 0 < r.value <= MAXIMUM_FEATURES {
      ItemsAre(r.value, r.value * STRING_SIZE, r.rest, []);
    }
  }

  /** At most 64 strings of at most 1024 bytes each. */
  predicate ShortList(values: seq<seq<byte>>) {
    |values| <= 64 && forall i :: 0 <= i < |values| ==> |values[i]| <= 1024
  }

  lemma ListedIff(s: seq<byte>, rest: seq<byte>)
    ensures Listed(Count, s) == Parsed(true, rest) <==>
            exists values :: ShortList(values) && s == EncodeList(EncodeString, values) + rest
  {
    ListIs(s);
    StringInverse(FEATURE_BYTES);
    var r := ParseList(StringParser(FEATURE_BYTES), s, MAXIMUM_FEATURES);
    if r.Parsed? {
      ListCanonical(StringParser(FEATURE_BYTES), EncodeString, AtMostBytes(FEATURE_BYTES), s, MAXIMUM_FEATURES);
      assert ShortList(r.value);
    }
    forall values | ShortList(values) && s == EncodeList(EncodeString, values) + rest ensures r == Parsed(values, rest) {
      assert AllValid(AtMostBytes(FEATURE_BYTES), values);
      ListRoundTrip(StringParser(FEATURE_BYTES), EncodeString, AtMostBytes(FEATURE_BYTES), values, MAXIMUM_FEATURES, rest);
    }
  }

  // ----- the client -----

  function ClientPhase(c: Client): nat {
    match c
    case Hello => 9
    case Magic => 8
    case ReadVersion => 7
    case Announce(_) => 6
    case Features(_, _) => 5
    case Options(_) => 4
    case DaemonLength(_) => 3
    case DaemonBody(_, _) => 2
    case Trust(_) => 1
    case _ => 0
  }

  function ClientSub(c: Client): nat {
    if c.Features? then StringsRank(c.strings) else 0
  }

  /** The client on what a server says, up to the log frames: the version it speaks then and
      what is left of the input. */
  ghost function ClientHears(p: Params, c: Client, s: seq<byte>): Parsed<Version>
    decreases ClientPhase(c), ClientSub(c)
  {
    if c.Last? || c.Connected? then Parsed(c.version, s)
    else if c.ClientFailed? || |s| < ClientNeeds(c) then Failed
    else if c.Features? && Exhausted(c.strings) then Failed
    else
      var n := ClientNeeds(c);
      ClientHears(p, ClientStep(p, c, s[..n]).0, s[n..])
  }

  predicate Exhausted(t: Handshake.Strings) {
    t.Bad? || t.Complete? || ((t.Length? || t.Body?) && t.left == 0)
  }

  lemma {:induction false} FeaturesHeard(p: Params, v: Version, t: Handshake.Strings, s: seq<byte>)
    requires !Exhausted(t)
    ensures ClientHears(p, Features(v, t), s) ==
            if Listed(t, s).Failed? then Failed else ClientHears(p, Options(v), Listed(t, s).rest)
    decreases StringsRank(t)
  {
    if |s| >= StringsNeed(t) {
      var t' := StringsStep(t, s[..StringsNeed(t)]);
      if !t'.Bad? && !t'.Complete? {
        StringsStepRanks(t, s[..StringsNeed(t)]);
        FeaturesHeard(p, v, t', s[StringsNeed(t)..]);
      }
    }
  }

  lemma TrustHeard(p: Params, v: Version, s: seq<byte>)
    ensures ClientHears(p, Trust(v), s) ==
            if ParseInt(s).Failed? || ParseInt(s).value > 2 then Failed else Parsed(v, ParseInt(s).rest)
  {
    if |s| >= 8 { ValueIs(s); }
  }

  lemma DaemonBodyHeard(p: Params, v: Version, size: nat, s: seq<byte>)
    ensures ClientHears(p, DaemonBody(v, size), s) ==
            var r := ParseBody(s, size);
            if r.Failed? then Failed else if AtLeast(v, Version(1, 35)) then ClientHears(p, Trust(v), r.rest) else Parsed(v, r.rest)
  {
    if |s| >= Padded(size) {
      assert s[..Padded(size)][size..] == s[size..Padded(size)];
    }
  }

  lemma DaemonHeard(p: Params, v: Version, s: seq<byte>)
    ensures ClientHears(p, DaemonLength(v), s) ==
            var r := ParseString(s, DAEMON_BYTES);
            if r.Failed? then Failed else if AtLeast(v, Version(1, 35)) then ClientHears(p, Trust(v), r.rest) else Parsed(v, r.rest)
  {
    if |s| >= 8 {
      ValueIs(s);
      DaemonBodyHeard(p, v, Value(s[..8]), s[8..]);
    }
  }

  /** The part of a speech that versions before 1.`minor` do not have. */
  function From(v: Version, minor: nat, part: seq<byte>): seq<byte> {
    if FromMinor(v, minor) then part else []
  }

  /** The daemon string and the trust, where the version has them, then `rest`. */
  ghost predicate Welcomes(v: Version, s: seq<byte>, rest: seq<byte>, daemon: seq<byte>, trust: u64) {
    |daemon| <= 1024 && trust <= 2 && s == From(v, 33, EncodeString(daemon)) + (From(v, 35, EncodeInt(trust)) + rest)
  }

  lemma TrustIff(p: Params, v: Version, s: seq<byte>, rest: seq<byte>)
    requires FromMinor(v, 35)
    ensures ClientHears(p, Trust(v), s) == Parsed(v, rest) <==> exists trust: u64 :: trust <= 2 && s == EncodeInt(trust) + rest
  {
    TrustHeard(p, v, s);
    if ParseInt(s).Parsed? { IntCanonical(s); }
    forall trust: u64 | s == EncodeInt(trust) + rest ensures ParseInt(s) == Parsed(trust, rest) {
      IntRoundTrip(trust, rest);
    }
  }

  lemma WelcomeHeard(p: Params, v: Version, s: seq<byte>, rest: seq<byte>) returns (daemon: seq<byte>, trust: u64)
    requires ClientHears(p, Options(v), s) == Parsed(v, rest)
    ensures Welcomes(v, s, rest, daemon, trust)
  {
    daemon, trust := [], 0;
    assert s[0..] == s;
    NothingFirst(rest);
    if FromMinor(v, 33) {
      DaemonHeard(p, v, s);
      StringCanonical(s, DAEMON_BYTES);
      daemon := ParseString(s, DAEMON_BYTES).value;
      if FromMinor(v, 35) {
        TrustIff(p, v, ParseString(s, DAEMON_BYTES).rest, rest);
        trust :| trust <= 2 && ParseString(s, DAEMON_BYTES).rest == EncodeInt(trust) + rest;
      }
    }
  }

  lemma WelcomeSpoken(p: Params, v: Version, s: seq<byte>, rest: seq<byte>, daemon: seq<byte>, trust: u64)
    requires Welcomes(v, s, rest, daemon, trust)
    ensures ClientHears(p, Options(v), s) == Parsed(v, rest)
  {
    assert s[0..] == s;
    NothingFirst(rest);
    if FromMinor(v, 33) {
      DaemonHeard(p, v, s);
      StringRoundTrip(daemon, DAEMON_BYTES, From(v, 35, EncodeInt(trust)) + rest);
      if FromMinor(v, 35) {
        TrustIff(p, v, EncodeInt(trust) + rest, rest);
      }
    }
  }

  /** The features, where the version has them, then the rest of the welcome. */
  ghost predicate Answers(v: Version, s: seq<byte>, rest: seq<byte>, features: seq<seq<byte>>, daemon: seq<byte>, trust: u64) {
    && ShortList(features) && |daemon| <= 1024 && trust <= 2
    && s == From(v, 38, EncodeList(EncodeString, features)) + (From(v, 33, EncodeString(daemon)) + (From(v, 35, EncodeInt(trust)) + rest))
  }

  /** The state behind the version. */
  function Agreeing(v: Version): Client {
    if AtLeast(v, FEATURE_NEGOTIATION) then Announce(v) else Options(v)
  }

  lemma AnnounceHeard(p: Params, v: Version, s: seq<byte>)
    ensures ClientHears(p, Announce(v), s) == ClientHears(p, Features(v, Count), s)
  {
    assert s[0..] == s;
  }

  lemma AnswerIff(p: Params, v: Version, s: seq<byte>, rest: seq<byte>)
    ensures ClientHears(p, Agreeing(v), s) == Parsed(v, rest) <==>
            exists features, daemon, trust :: Answers(v, s, rest, features, daemon, trust)
  {
    if ClientHears(p, Agreeing(v), s) == Parsed(v, rest) {
      AnswerHeard(p, v, s, rest);
    }
    forall features, daemon, trust | Answers(v, s, rest, features, daemon, trust)
      ensures ClientHears(p, Agreeing(v), s) == Parsed(v, rest)
    {
      AnswerSpoken(p, v, s, rest, features, daemon, trust);
    }
  }

  lemma AnswerHeard(p: Params, v: Version, s: seq<byte>, rest: seq<byte>)
    requires ClientHears(p, Agreeing(v), s) == Parsed(v, rest)
    ensures exists features, daemon, trust :: Answers(v, s, rest, features, daemon, trust)
  {
    var features, welcome := [], s;
    if FromMinor(v, 38) {
      AnnounceHeard(p, v, s);
      FeaturesHeard(p, v, Count, s);
      welcome := Listed(Count, s).rest;
      ListIs(s);
      ListedIff(s, welcome);
      features :| ShortList(features) && s == EncodeList(EncodeString, features) + welcome;
    } else {
      NothingFirst(s);
    }
    var daemon, trust := WelcomeHeard(p, v, welcome, rest);
    assert Answers(v, s, rest, features, daemon, trust);
  }

  lemma AnswerSpoken(p: Params, v: Version, s: seq<byte>, rest: seq<byte>, features: seq<seq<byte>>, daemon: seq<byte>, trust: u64)
    requires Answers(v, s, rest, features, daemon, trust)
    ensures ClientHears(p, Agreeing(v), s) == Parsed(v, rest)
  {
    var welcome := From(v, 33, EncodeString(daemon)) + (From(v, 35, EncodeInt(trust)) + rest);
    WelcomeSpoken(p, v, welcome, rest, daemon, trust);
    if FromMinor(v, 38) {
      AnnounceHeard(p, v, s);
      FeaturesHeard(p, v, Count, s);
      ListedIff(s, welcome);
    } else {
      NothingFirst(welcome);
    }
  }


  /** The lower of the version in an announced number, its low sixteen bits, and `own`. */
  function Settled(n: u64, own: Version): Version {
    var major, minor := n / 256 % 256, n % 256;
    if major < own.major || (major == own.major && minor < own.minor) then Version(major, minor) else own
  }

  /** A server's whole speech before the log: magic, a version of the client's major from 1.35 on,
      and the answer of the lower version. */
  ghost predicate Greets(p: Params, s: seq<byte>, v: Version, rest: seq<byte>, n: u64, answer: seq<byte>) {
    && s == EncodeInt(0x6478_696f) + (EncodeInt(n) + answer)
    && n / 256 % 256 == p.client.major && FromMinor(Version(n / 256 % 256, n % 256), 35) && v == Settled(n, p.client)
    && exists features, daemon, trust :: Answers(v, answer, rest, features, daemon, trust)
  }

  lemma VersionHeard(p: Params, s: seq<byte>)
    ensures ClientHears(p, ReadVersion, s) ==
            var r := ParseInt(s);
            if r.Failed? || r.value / 256 % 256 != p.client.major || !FromMinor(FromWire(r.value), 35) then Failed
            else ClientHears(p, Agreeing(Settled(r.value, p.client)), r.rest)
  {
    if |s| >= 8 { ValueIs(s); }
  }

  lemma HelloHeard(p: Params, s: seq<byte>)
    ensures ClientHears(p, Hello, s) ==
            var r := ParseInt(s);
            if r.Failed? || r.value != 0x6478_696f then Failed else ClientHears(p, ReadVersion, r.rest)
  {
    assert s[0..] == s;
    if |s| >= 8 { ValueIs(s); }
  }

  /** What the client settles on is what it reports. */
  lemma VersionKept(p: Params, v: Version, s: seq<byte>)
    ensures ClientHears(p, Agreeing(v), s).Parsed? ==> ClientHears(p, Agreeing(v), s).value == v
  {
    if FromMinor(v, 38) {
      AnnounceHeard(p, v, s);
      FeaturesHeard(p, v, Count, s);
      if Listed(Count, s).Parsed? { OptionsKeep(p, v, Listed(Count, s).rest); }
    } else {
      OptionsKeep(p, v, s);
    }
  }

  lemma OptionsKeep(p: Params, v: Version, s: seq<byte>)
    ensures ClientHears(p, Options(v), s).Parsed? ==> ClientHears(p, Options(v), s).value == v
  {
    assert s[0..] == s;
    if FromMinor(v, 33) {
      DaemonHeard(p, v, s);
      if FromMinor(v, 35) && ParseString(s, DAEMON_BYTES).Parsed? {
        TrustHeard(p, v, ParseString(s, DAEMON_BYTES).rest);
      }
    }
  }

  lemma GreetingHeard(p: Params, s: seq<byte>, v: Version, rest: seq<byte>)
    requires ClientHears(p, Hello, s) == Parsed(v, rest)
    ensures exists n, answer :: Greets(p, s, v, rest, n, answer)
  {
    HelloHeard(p, s);
    IntCanonical(s);
    var after := ParseInt(s).rest;
    VersionHeard(p, after);
    IntCanonical(after);
    var n, answer := ParseInt(after).value, ParseInt(after).rest;
    VersionKept(p, Settled(n, p.client), answer);
    AnswerIff(p, v, answer, rest);
    assert Greets(p, s, v, rest, n, answer);
  }

  lemma GreetingSpoken(p: Params, s: seq<byte>, v: Version, rest: seq<byte>, n: u64, answer: seq<byte>)
    requires Greets(p, s, v, rest, n, answer)
    ensures ClientHears(p, Hello, s) == Parsed(v, rest)
  {
    HelloHeard(p, s);
    IntRoundTrip(0x6478_696f, EncodeInt(n) + answer);
    VersionHeard(p, EncodeInt(n) + answer);
    IntRoundTrip(n, answer);
    AnswerIff(p, v, answer, rest);
  }

  /** Whatever is on the stream, the client gets to the log frames exactly behind a well-formed
      speech, at the lower version, and has read no more than that speech. */
  lemma ClientReachesIff(p: Params, s: seq<byte>, v: Version, rest: seq<byte>)
    ensures ClientHears(p, Hello, s) == Parsed(v, rest) <==> exists n, answer :: Greets(p, s, v, rest, n, answer)
  {
    if ClientHears(p, Hello, s) == Parsed(v, rest) {
      GreetingHeard(p, s, v, rest);
    }
    forall n, answer | Greets(p, s, v, rest, n, answer) ensures ClientHears(p, Hello, s) == Parsed(v, rest) {
      GreetingSpoken(p, s, v, rest, n, answer);
    }
  }

  // ----- the server -----

  function ServerPhase(t: Server): nat {
    match t
    case AwaitMagic => 8
    case Greet => 7
    case AwaitVersion => 6
    case AwaitFeatures(_, _) => 5
    case Reply(_) => 4
    case AwaitAffinity(_) => 3
    case AwaitCpu(_) => 2
    case AwaitReserve(_) => 1
    case _ => 0
  }

  function ServerSub(t: Server): nat {
    if t.AwaitFeatures? then StringsRank(t.strings) else 0
  }

  /** The server on what a client says, up to its welcome. */
  ghost function ServerHears(p: Params, t: Server, s: seq<byte>): Parsed<Version>
    decreases ServerPhase(t), ServerSub(t)
  {
    if t.Welcome? || t.Ready? then Parsed(t.version, s)
    else if t.ServerFailed? || |s| < ServerNeeds(t) then Failed
    else if t.AwaitFeatures? && Exhausted(t.strings) then Failed
    else
      var n := ServerNeeds(t);
      ServerHears(p, ServerStep(p, t, s[..n]).0, s[n..])
  }

  lemma {:induction false} FeaturesAwaited(p: Params, client: Version, t: Handshake.Strings, s: seq<byte>)
    requires !Exhausted(t)
    ensures ServerHears(p, AwaitFeatures(client, t), s) ==
            if Listed(t, s).Failed? then Failed else ServerHears(p, Negotiate(p, client), Listed(t, s).rest)
    decreases StringsRank(t)
  {
    if |s| >= StringsNeed(t) {
      var t' := StringsStep(t, s[..StringsNeed(t)]);
      if !t'.Bad? && !t'.Complete? {
        StringsStepRanks(t, s[..StringsNeed(t)]);
        FeaturesAwaited(p, client, t', s[StringsNeed(t)..]);
      }
    }
  }

  /** A CPU affinity, which a zero leaves out, and a reserve that is ignored. */
  ghost predicate Requests(s: seq<byte>, rest: seq<byte>, affinity: u64, cpu: u64, reserve: u64) {
    s == EncodeInt(affinity) + ((if affinity != 0 then EncodeInt(cpu) else []) + (EncodeInt(reserve) + rest))
  }

  lemma ReserveHeard(p: Params, v: Version, s: seq<byte>)
    ensures ServerHears(p, AwaitReserve(v), s) == if ParseInt(s).Failed? then Failed else Parsed(v, ParseInt(s).rest)
  {
  }

  lemma CpuHeard(p: Params, v: Version, s: seq<byte>)
    requires FromMinor(v, 11)
    ensures ServerHears(p, AwaitCpu(v), s) == if ParseInt(s).Failed? then Failed else ServerHears(p, AwaitReserve(v), ParseInt(s).rest)
  {
  }

  lemma AffinityHeard(p: Params, v: Version, s: seq<byte>)
    requires FromMinor(v, 11)
    ensures ServerHears(p, AwaitAffinity(v), s) ==
            var r := ParseInt(s);
            if r.Failed? then Failed
            else if r.value != 0 then ServerHears(p, AwaitCpu(v), r.rest)
            else ServerHears(p, AwaitReserve(v), r.rest)
  {
    if |s| >= 8 { ValueIs(s); }
  }

  lemma ReserveIff(p: Params, v: Version, s: seq<byte>, rest: seq<byte>)
    ensures ServerHears(p, AwaitReserve(v), s) == Parsed(v, rest) <==> exists reserve: u64 :: s == EncodeInt(reserve) + rest
  {
    ReserveHeard(p, v, s);
    if ParseInt(s).Parsed? { IntCanonical(s); }
    forall reserve: u64 | s == EncodeInt(reserve) + rest ensures ParseInt(s) == Parsed(reserve, rest) {
      IntRoundTrip(reserve, rest);
    }
  }

  lemma RequestsHeard(p: Params, v: Version, s: seq<byte>, rest: seq<byte>) returns (affinity: u64, cpu: u64, reserve: u64)
    requires FromMinor(v, 35) && ServerHears(p, AwaitAffinity(v), s) == Parsed(v, rest)
    ensures Requests(s, rest, affinity, cpu, reserve)
  {
    AffinityHeard(p, v, s);
    IntCanonical(s);
    affinity, cpu := ParseInt(s).value, 0;
    var after := ParseInt(s).rest;
    if affinity != 0 {
      CpuHeard(p, v, after);
      IntCanonical(after);
      cpu := ParseInt(after).value;
      ReserveIff(p, v, ParseInt(after).rest, rest);
      reserve :| ParseInt(after).rest == EncodeInt(reserve) + rest;
    } else {
      ReserveIff(p, v, after, rest);
      reserve :| after == EncodeInt(reserve) + rest;
      NothingFirst(EncodeInt(reserve) + rest);
    }
  }

  lemma RequestsSpoken(p: Params, v: Version, s: seq<byte>, rest: seq<byte>, affinity: u64, cpu: u64, reserve: u64)
    requires FromMinor(v, 35) && Requests(s, rest, affinity, cpu, reserve)
    ensures ServerHears(p, AwaitAffinity(v), s) == Parsed(v, rest)
  {
    AffinityHeard(p, v, s);
    var last := EncodeInt(reserve) + rest;
    IntRoundTrip(affinity, (if affinity != 0 then EncodeInt(cpu) else []) + last);
    ReserveIff(p, v, last, rest);
    if affinity != 0 {
      CpuHeard(p, v, EncodeInt(cpu) + last);
      IntRoundTrip(cpu, last);
    } else {
      NothingFirst(last);
    }
  }

  /** A client's whole speech: magic, version, from 1.38 on its features, and its requests. */
  ghost predicate Calls(p: Params, s: seq<byte>, v: Version, rest: seq<byte>, n: u64, features: seq<seq<byte>>, requests: seq<byte>) {
    && s == EncodeInt(0x6e69_7863) + (EncodeInt(n) + (From(v, 38, EncodeList(EncodeString, features)) + requests))
    && v == Settled(n, p.server) && FromMinor(v, 35) && ShortList(features)
    && exists affinity, cpu, reserve :: Requests(requests, rest, affinity, cpu, reserve)
  }

  lemma MagicAwaited(p: Params, s: seq<byte>)
    ensures ServerHears(p, AwaitMagic, s) ==
            var r := ParseInt(s);
            if r.Failed? || r.value != 0x6e69_7863 then Failed else ServerHears(p, AwaitVersion, r.rest)
  {
    if |s| >= 8 {
      ValueIs(s);
      assert s[8..][0..] == s[8..];
    }
  }

  lemma VersionAwaited(p: Params, s: seq<byte>)
    ensures ServerHears(p, AwaitVersion, s) ==
            var r := ParseInt(s);
            if r.Failed? then Failed
            else if FromMinor(Settled(r.value, p.server), 38) then ServerHears(p, AwaitFeatures(FromWire(r.value), Count), r.rest)
            else ServerHears(p, Negotiate(p, FromWire(r.value)), r.rest)
  {
    if |s| >= 8 { ValueIs(s); }
  }

  lemma NegotiationHeard(p: Params, n: u64, s: seq<byte>)
    ensures var v := Settled(n, p.server);
            ServerHears(p, Negotiate(p, FromWire(n)), s) ==
            if FromMinor(v, 35) then ServerHears(p, AwaitAffinity(v), s) else Failed
  {
    assert s[0..] == s;
  }

  /** Behind the version. */
  lemma CallContinues(p: Params, n: u64, s: seq<byte>)
    ensures var v := Settled(n, p.server);
            ServerHears(p, AwaitVersion, EncodeInt(n) + s) ==
            if !FromMinor(v, 35) then Failed
            else if !FromMinor(v, 38) then ServerHears(p, AwaitAffinity(v), s)
            else if Listed(Count, s).Failed? then Failed
            else ServerHears(p, AwaitAffinity(v), Listed(Count, s).rest)
  {
    VersionAwaited(p, EncodeInt(n) + s);
    IntRoundTrip(n, s);
    FeaturesAwaited(p, FromWire(n), Count, s);
    NegotiationHeard(p, n, s);
    if Listed(Count, s).Parsed? { NegotiationHeard(p, n, Listed(Count, s).rest); }
  }

  lemma AffinityKeeps(p: Params, v: Version, s: seq<byte>)
    requires FromMinor(v, 35)
    ensures ServerHears(p, AwaitAffinity(v), s).Parsed? ==> ServerHears(p, AwaitAffinity(v), s).value == v
  {
    AffinityHeard(p, v, s);
    if ParseInt(s).Parsed? {
      var after := ParseInt(s).rest;
      ReserveHeard(p, v, after);
      CpuHeard(p, v, after);
      if ParseInt(after).Parsed? { ReserveHeard(p, v, ParseInt(after).rest); }
    }
  }

  lemma CallHeard(p: Params, s: seq<byte>, v: Version, rest: seq<byte>)
    requires ServerHears(p, AwaitMagic, s) == Parsed(v, rest)
    ensures exists n, features, requests :: Calls(p, s, v, rest, n, features, requests)
  {
    MagicAwaited(p, s);
    IntCanonical(s);
    var after := ParseInt(s).rest;
    VersionAwaited(p, after);
    IntCanonical(after);
    var n, features, requests := ParseInt(after).value, [], ParseInt(after).rest;
    CallContinues(p, n, requests);
    if FromMinor(Settled(n, p.server), 38) {
      var list := requests;
      requests := Listed(Count, list).rest;
      ListIs(list);
      ListedIff(list, requests);
      features :| ShortList(features) && list == EncodeList(EncodeString, features) + requests;
    } else {
      NothingFirst(requests);
    }
    AffinityKeeps(p, Settled(n, p.server), requests);
    var affinity, cpu, reserve := RequestsHeard(p, v, requests, rest);
    assert Calls(p, s, v, rest, n, features, requests);
  }

  lemma CallSpoken(p: Params, s: seq<byte>, v: Version, rest: seq<byte>, n: u64, features: seq<seq<byte>>, requests: seq<byte>)
    requires Calls(p, s, v, rest, n, features, requests)
    ensures ServerHears(p, AwaitMagic, s) == Parsed(v, rest)
  {
    var tail := From(v, 38, EncodeList(EncodeString, features)) + requests;
    MagicAwaited(p, s);
    IntRoundTrip(0x6e69_7863, EncodeInt(n) + tail);
    CallContinues(p, n, tail);
    if FromMinor(v, 38) {
      ListedIff(tail, requests);
    } else {
      NothingFirst(requests);
    }
    var affinity, cpu, reserve :| Requests(requests, rest, affinity, cpu, reserve);
    RequestsSpoken(p, v, requests, rest, affinity, cpu, reserve);
  }

  /** Whatever is on the stream, the server gets to its welcome exactly behind a well-formed
      call of version 1.35 or later, at the lower version, and has read no more than that call. */
  lemma ServerReachesIff(p: Params, s: seq<byte>, v: Version, rest: seq<byte>)
    ensures ServerHears(p, AwaitMagic, s) == Parsed(v, rest) <==>
            exists n, features, requests :: Calls(p, s, v, rest, n, features, requests)
  {
    if ServerHears(p, AwaitMagic, s) == Parsed(v, rest) {
      CallHeard(p, s, v, rest);
    }
    forall n, features, requests | Calls(p, s, v, rest, n, features, requests)
      ensures ServerHears(p, AwaitMagic, s) == Parsed(v, rest)
    {
      CallSpoken(p, s, v, rest, n, features, requests);
    }
  }
}
