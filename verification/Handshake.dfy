/** The handshake of worker client and server as two processes over two byte pipes.  Reads
    are of fixed sizes and block until that many bytes have arrived; bytes in flight arrive
    in any portions. */
module Handshake {
  import opened Bytes
  import opened Wire
  import opened Streams

  const CLIENT_MAGIC: u64 := 0x6e69_7863
  const SERVER_MAGIC: u64 := 0x6478_696f
  const STDERR_LAST: u64 := 0x616c_7473
  const MAXIMUM_FEATURES := 64
  const FEATURE_BYTES := 1024
  const DAEMON_BYTES := 1024
  /** `size_of::<String>()` on a 64-bit target. */
  const STRING_SIZE := 24
  const BUDGET := 16 * 1024 * 1024

  // ----- versions -----

  type u8 = x: int | 0 <= x < 256

  datatype Version = Version(major: u8, minor: u8)

  const MINIMUM := Version(1, 35)
  const FEATURE_NEGOTIATION := Version(1, 38)

  predicate AtLeast(v: Version, w: Version) {
    v.major > w.major || (v.major == w.major && v.minor >= w.minor)
  }

  function Min(v: Version, w: Version): (r: Version)
    ensures (r == v || r == w) && AtLeast(v, r) && AtLeast(w, r)
  {
    if AtLeast(v, w) then w else v
  }

  function ToWire(v: Version): u64 {
    v.major * 256 + v.minor
  }

  /** The low sixteen bits; the rest is ignored. */
  function FromWire(n: u64): Version {
    Version((n / 256) % 256, n % 256)
  }

  lemma VersionRoundTrip(v: Version)
    ensures FromWire(ToWire(v)) == v
  {
  }

  // ----- integers -----

  /** An integer on the wire, sealed: its digits play no part below. */
  ghost function Word(n: u64): (r: seq<byte>)
    ensures |r| == 8
  {
    Unsealed(EncodeInt);
    Sealed(EncodeInt)(n)
  }

  function Decoded(s: seq<byte>): u64 {
    if |s| == 8 then DecodeInt(s) else 0
  }

  ghost function Value(s: seq<byte>): u64 {
    Sealed(Decoded)(s)
  }

  // ----- reading a list of strings -----

  datatype Strings = Count | Length(left: nat, held: nat) | Body(left: nat, size: nat, held: nat) | Complete | Bad

  function StringsNeed(s: Strings): nat {
    match s
    case Count => 8
    case Length(_, _) => 8
    case Body(_, size, _) => Padded(size)
    case _ => 0
  }

  ghost function StringsStep(s: Strings, chunk: seq<byte>): Strings
    requires |chunk| == StringsNeed(s)
  {
    match s
    case Count =>
      var count := Value(chunk);
      if count > MAXIMUM_FEATURES || count * STRING_SIZE > BUDGET then Bad
      else if count == 0 then Complete
      else Length(count, count * STRING_SIZE)
    case Length(left, held) =>
      var size := Value(chunk);
      if size > FEATURE_BYTES || held + Padded(size) > BUDGET then Bad else Body(left, size, held + Padded(size))
    case Body(left, size, held) =>
      if !AllZero(chunk[size..]) then Bad
      else if left <= 1 then Complete
      else Length(left - 1, held)
    case _ => Bad
  }

  // ----- the two processes -----

  /** Each side's latest version, the server's features and its daemon string. */
  datatype Params = Params(client: Version, server: Version, features: seq<seq<byte>>, daemon: seq<byte>)

  datatype Client =
    | Hello
    | Magic
    | ReadVersion
    | Announce(version: Version)
    | Features(version: Version, strings: Strings)
    | Options(version: Version)
    | DaemonLength(version: Version)
    | DaemonBody(version: Version, size: nat)
    | Trust(version: Version)
    | Last(version: Version)
    | Connected(version: Version)
    | ClientFailed

  datatype Server =
    | AwaitMagic
    | Greet
    | AwaitVersion
    | AwaitFeatures(client: Version, strings: Strings)
    | Reply(version: Version)
    | AwaitAffinity(version: Version)
    | AwaitCpu(version: Version)
    | AwaitReserve(version: Version)
    | Welcome(version: Version)
    | Ready(version: Version)
    | ServerFailed

  function ClientNeeds(c: Client): nat {
    match c
    case Magic => 8
    case ReadVersion => 8
    case Features(_, s) => StringsNeed(s)
    case DaemonLength(_) => 8
    case DaemonBody(_, size) => Padded(size)
    case Trust(_) => 8
    case Last(_) => 8
    case _ => 0
  }

  predicate ClientDone(c: Client) {
    c.Connected? || c.ClientFailed?
  }

  /** `connect_with_store_directory`: the next state and what is written. */
  ghost function ClientStep(p: Params, c: Client, chunk: seq<byte>): (Client, seq<byte>)
    requires |chunk| == ClientNeeds(c) && !ClientDone(c)
  {
    match c
    case Hello => (Magic, Word(CLIENT_MAGIC) + Word(ToWire(p.client)))
    case Magic => (if Value(chunk) == SERVER_MAGIC then ReadVersion else ClientFailed, [])
    case ReadVersion =>
      var daemon := FromWire(Value(chunk));
      if daemon.major != p.client.major || !AtLeast(daemon, MINIMUM) then (ClientFailed, [])
      else
        var v := Min(daemon, p.client);
        (if AtLeast(v, FEATURE_NEGOTIATION) then Announce(v) else Options(v), [])
    case Announce(v) => (Features(v, Count), Word(0))
    case Features(v, s) =>
      var s' := StringsStep(s, chunk);
      (if s'.Bad? then ClientFailed else if s'.Complete? then Options(v) else Features(v, s'), [])
    case Options(v) =>
      ((if AtLeast(v, Version(1, 33)) then DaemonLength(v) else if AtLeast(v, Version(1, 35)) then Trust(v) else Last(v)),
       (if AtLeast(v, Version(1, 14)) then Word(0) else []) + (if AtLeast(v, Version(1, 11)) then Word(0) else []))
    case DaemonLength(v) =>
      var size := Value(chunk);
      (if size > DAEMON_BYTES then ClientFailed else DaemonBody(v, size), [])
    case DaemonBody(v, size) =>
      (if !AllZero(chunk[size..]) then ClientFailed else if AtLeast(v, Version(1, 35)) then Trust(v) else Last(v), [])
    case Trust(v) => (if Value(chunk) > 2 then ClientFailed else Last(v), [])
    case Last(v) => (if Value(chunk) == STDERR_LAST then Connected(v) else ClientFailed, [])
  }

  function ServerNeeds(s: Server): nat {
    match s
    case AwaitMagic => 8
    case AwaitVersion => 8
    case AwaitFeatures(_, t) => StringsNeed(t)
    case AwaitAffinity(_) => 8
    case AwaitCpu(_) => 8
    case AwaitReserve(_) => 8
    case _ => 0
  }

  predicate ServerDone(s: Server) {
    s.Ready? || s.ServerFailed?
  }

  /** Once the client's features are in: negotiate, and answer where features are spoken. */
  function Negotiate(p: Params, client: Version): Server {
    var v := Min(client, p.server);
    if !AtLeast(v, MINIMUM) then ServerFailed
    else if AtLeast(v, FEATURE_NEGOTIATION) then Reply(v)
    else Post(v)
  }

  /** Where `complete_server_post_handshake` starts. */
  function Post(v: Version): Server {
    if AtLeast(v, Version(1, 14)) then AwaitAffinity(v) else AfterAffinity(v)
  }

  function AfterAffinity(v: Version): Server {
    if AtLeast(v, Version(1, 11)) then AwaitReserve(v) else Welcome(v)
  }

  /** `perform_server_handshake` and `complete_server_post_handshake`. */
  ghost function ServerStep(p: Params, s: Server, chunk: seq<byte>): (Server, seq<byte>)
    requires |chunk| == ServerNeeds(s) && !ServerDone(s)
  {
    match s
    case AwaitMagic => (if Value(chunk) == CLIENT_MAGIC then Greet else ServerFailed, [])
    case Greet => (AwaitVersion, Word(SERVER_MAGIC) + Word(ToWire(p.server)))
    case AwaitVersion =>
      var client := FromWire(Value(chunk));
      (if AtLeast(Min(client, p.server), FEATURE_NEGOTIATION) then AwaitFeatures(client, Count) else Negotiate(p, client), [])
    case AwaitFeatures(client, t) =>
      var t' := StringsStep(t, chunk);
      (if t'.Bad? then ServerFailed else if t'.Complete? then Negotiate(p, client) else AwaitFeatures(client, t'), [])
    case Reply(v) => (Post(v), EncodeList(EncodeString, p.features))
    case AwaitAffinity(v) => (if Value(chunk) != 0 then AwaitCpu(v) else AfterAffinity(v), [])
    case AwaitCpu(v) => (AfterAffinity(v), [])
    case AwaitReserve(v) => (Welcome(v), [])
    case Welcome(v) =>
      (Ready(v),
       (if AtLeast(v, Version(1, 33)) then EncodeString(p.daemon) else [])
       + ((if AtLeast(v, Version(1, 35)) then Word(0) else []) + Word(STDERR_LAST)))
  }

  // ----- the system -----

  /** Bytes that have arrived and bytes on their way. */
  datatype Pipe = Pipe(arrived: seq<byte>, flight: seq<byte>)

  datatype State = State(client: Client, server: Server, toServer: Pipe, toClient: Pipe)

  datatype Step = ClientMoves | ServerMoves | ArriveAtServer(n: nat) | ArriveAtClient(n: nat)

  ghost predicate Enabled(s: State, step: Step) {
    match step
    case ClientMoves => !ClientDone(s.client) && ClientNeeds(s.client) <= |s.toClient.arrived|
    case ServerMoves => !ServerDone(s.server) && ServerNeeds(s.server) <= |s.toServer.arrived|
    case ArriveAtServer(n) => 0 < n <= |s.toServer.flight|
    case ArriveAtClient(n) => 0 < n <= |s.toClient.flight|
  }

  function Arrive(p: Pipe, n: nat): Pipe
    requires n <= |p.flight|
  {
    Pipe(p.arrived + p.flight[..n], p.flight[n..])
  }

  ghost function Apply(p: Params, s: State, step: Step): State
    requires Enabled(s, step)
  {
    match step
    case ClientMoves =>
      var n := ClientNeeds(s.client);
      var (c, out) := ClientStep(p, s.client, s.toClient.arrived[..n]);
      s.(client := c, toClient := s.toClient.(arrived := s.toClient.arrived[n..]),
              toServer := s.toServer.(flight := s.toServer.flight + out))
    case ServerMoves =>
      var n := ServerNeeds(s.server);
      var (t, out) := ServerStep(p, s.server, s.toServer.arrived[..n]);
      s.(server := t, toServer := s.toServer.(arrived := s.toServer.arrived[n..]),
              toClient := s.toClient.(flight := s.toClient.flight + out))
    case ArriveAtServer(n) => s.(toServer := Arrive(s.toServer, n))
    case ArriveAtClient(n) => s.(toClient := Arrive(s.toClient, n))
  }
  // ----- what is still to come -----

  predicate VersionsOk(p: Params) {
    p.client.major == p.server.major && AtLeast(p.client, MINIMUM) && AtLeast(p.server, MINIMUM)
  }

  predicate FeaturesFit(features: seq<seq<byte>>) {
    forall i :: 0 <= i < |features| ==> |features[i]| <= FEATURE_BYTES
  }

  predicate LimitsOk(p: Params) {
    (WithFeatures(p) ==> |p.features| <= MAXIMUM_FEATURES && FeaturesFit(p.features)) && |p.daemon| <= DAEMON_BYTES
  }

  predicate ParamsOk(p: Params) {
    VersionsOk(p) && LimitsOk(p)
  }

  function Agreed(p: Params): Version {
    Min(p.client, p.server)
  }

  predicate WithFeatures(p: Params) {
    AtLeast(Agreed(p), FEATURE_NEGOTIATION)
  }

  function StringBody(v: seq<byte>): (r: seq<byte>)
    ensures |r| == Padded(|v|)
  {
    v + Zeros(Padding(|v|))
  }

  ghost function WelcomeTail(): seq<byte> {
    Word(0) + Word(STDERR_LAST)
  }

  ghost function WelcomeBytes(p: Params): seq<byte> {
    EncodeString(p.daemon) + WelcomeTail()
  }

  /** The server's features from the `i`th, then the welcome. */
  ghost function FeaturesFrom(p: Params, i: nat): seq<byte>
    requires i <= |p.features|
  {
    EncodeItems(EncodeString, p.features[i..]) + WelcomeBytes(p)
  }

  ghost function FeatureReply(p: Params): seq<byte> {
    if WithFeatures(p) then EncodeList(EncodeString, p.features) + WelcomeBytes(p) else WelcomeBytes(p)
  }

  ghost function Greeting(p: Params): seq<byte> {
    Word(SERVER_MAGIC) + (Word(ToWire(p.server)) + FeatureReply(p))
  }

  ghost function OptionBytes(): seq<byte> {
    Word(0) + Word(0)
  }

  ghost function Announcement(p: Params): seq<byte> {
    if WithFeatures(p) then Word(0) + OptionBytes() else OptionBytes()
  }

  /** States the handshake passes through, with what they must carry. */
  ghost predicate ClientOk(p: Params, c: Client) {
    match c
    case Hello => true
    case Magic => true
    case ReadVersion => true
    case ClientFailed => false
    case Announce(v) => v == Agreed(p) && WithFeatures(p)
    case Features(v, s) => v == Agreed(p) && WithFeatures(p) && StringsOk(p, s)
    case DaemonBody(v, size) => v == Agreed(p) && size == |p.daemon|
    case _ => c.version == Agreed(p)
  }

  ghost predicate StringsOk(p: Params, s: Strings) {
    match s
    case Count => true
    case Length(left, held) => 1 <= left <= |p.features| && held <= HeldBound(p, left)
    case Body(left, size, held) => 1 <= left <= |p.features| && size == |p.features[|p.features| - left]|
            && held <= HeldBound(p, left - 1)
    case _ => false
  }

  /** What the client has found of the limits by then. */
  ghost predicate Vouched(p: Params, c: Client) {
    var n := |p.features|;
    match c
    case Features(_, Length(left, _)) => n <= MAXIMUM_FEATURES && left <= n && FeaturesFit(p.features[..n - left])
    case Features(_, Body(left, _, _)) => n <= MAXIMUM_FEATURES && 1 <= left <= n && FeaturesFit(p.features[..n - left + 1])
    case Options(_) => WithFeatures(p) ==> n <= MAXIMUM_FEATURES && FeaturesFit(p.features)
    case DaemonLength(_) => WithFeatures(p) ==> n <= MAXIMUM_FEATURES && FeaturesFit(p.features)
    case DaemonBody(_, _) => LimitsOk(p)
    case Trust(_) => LimitsOk(p)
    case Last(_) => LimitsOk(p)
    case Connected(_) => LimitsOk(p)
    case _ => true
  }

  /** The limit that the client checks next, if any, is kept. */
  ghost predicate Clears(p: Params, c: Client)
    requires ClientOk(p, c)
  {
    match c
    case Features(_, Count) => |p.features| <= MAXIMUM_FEATURES
    case Features(_, Length(left, _)) => |p.features[|p.features| - left]| <= FEATURE_BYTES
    case DaemonLength(_) => |p.daemon| <= DAEMON_BYTES
    case _ => true
  }

  lemma ParamsClear(p: Params, c: Client)
    requires ParamsOk(p) && ClientOk(p, c)
    ensures Vouched(p, c) && Clears(p, c)
  {
  }

  /** No more than this is charged with `left` features to go. */
  function HeldBound(p: Params, left: nat): int {
    MAXIMUM_FEATURES * STRING_SIZE + (|p.features| - left) * (FEATURE_BYTES + 8)
  }

  ghost function ClientExpects(p: Params, c: Client): seq<byte>
    requires ClientOk(p, c)
  {
    match c
    case Hello => Greeting(p)
    case Magic => Greeting(p)
    case ReadVersion => Word(ToWire(p.server)) + FeatureReply(p)
    case Announce(_) => FeatureReply(p)
    case Features(_, s) =>
      (match s
       case Count => FeatureReply(p)
       case Length(left, _) => FeaturesFrom(p, |p.features| - left)
       case Body(left, _, _) => StringBody(p.features[|p.features| - left]) + FeaturesFrom(p, |p.features| - left + 1))
    case Options(_) => WelcomeBytes(p)
    case DaemonLength(_) => WelcomeBytes(p)
    case DaemonBody(_, _) => StringBody(p.daemon) + WelcomeTail()
    case Trust(_) => WelcomeTail()
    case Last(_) => Word(STDERR_LAST)
    case Connected(_) => []
  }

  ghost function ClientOwes(p: Params, c: Client): seq<byte>
    requires ClientOk(p, c)
  {
    match c
    case Hello => Word(CLIENT_MAGIC) + (Word(ToWire(p.client)) + Announcement(p))
    case Magic => Announcement(p)
    case ReadVersion => Announcement(p)
    case Announce(_) => Announcement(p)
    case Features(_, _) => OptionBytes()
    case Options(_) => OptionBytes()
    case _ => []
  }

  ghost predicate ServerOk(p: Params, s: Server) {
    match s
    case AwaitMagic => true
    case Greet => true
    case AwaitVersion => true
    case AwaitFeatures(client, t) => client == p.client && t == Count && WithFeatures(p)
    case Reply(v) => v == Agreed(p) && WithFeatures(p)
    case AwaitCpu(_) => false
    case ServerFailed => false
    case _ => s.version == Agreed(p)
  }

  ghost function ServerExpects(p: Params, s: Server): seq<byte>
    requires ServerOk(p, s)
  {
    match s
    case AwaitMagic => Word(CLIENT_MAGIC) + (Word(ToWire(p.client)) + Announcement(p))
    case Greet => Word(ToWire(p.client)) + Announcement(p)
    case AwaitVersion => Word(ToWire(p.client)) + Announcement(p)
    case AwaitFeatures(_, _) => Announcement(p)
    case Reply(_) => OptionBytes()
    case AwaitAffinity(_) => OptionBytes()
    case AwaitReserve(_) => Word(0)
    case _ => []
  }

  ghost function ServerOwes(p: Params, s: Server): seq<byte>
    requires ServerOk(p, s)
  {
    match s
    case AwaitMagic => Greeting(p)
    case Greet => Greeting(p)
    case AwaitVersion => FeatureReply(p)
    case AwaitFeatures(_, _) => FeatureReply(p)
    case Reply(_) => FeatureReply(p)
    case Ready(_) => []
    case _ => WelcomeBytes(p)
  }

  /** What is on the way and what the writer will still write is what the reader expects. */
  ghost predicate Balanced(pipe: Pipe, owed: seq<byte>, expected: seq<byte>) {
    pipe.arrived + (pipe.flight + owed) == expected
  }

  ghost predicate Inv(p: Params, s: State) {
    && ClientOk(p, s.client) && ServerOk(p, s.server)
    && Balanced(s.toClient, ServerOwes(p, s.server), ClientExpects(p, s.client))
    && Balanced(s.toServer, ClientOwes(p, s.client), ServerExpects(p, s.server))
  }

  /** States still to pass. */
  function ClientRank(p: Params, c: Client): nat {
    var n := 2 * |p.features|;
    match c
    case Hello => n + 10
    case Magic => n + 9
    case ReadVersion => n + 8
    case Announce(_) => n + 7
    case Features(_, Count) => n + 6
    case Features(_, Length(left, _)) => 2 * left + 5
    case Features(_, Body(left, _, _)) => 2 * left + 4
    case Features(_, _) => 0
    case Options(_) => 5
    case DaemonLength(_) => 4
    case DaemonBody(_, _) => 3
    case Trust(_) => 2
    case Last(_) => 1
    case _ => 0
  }

  function ServerRank(s: Server): nat {
    match s
    case AwaitMagic => 9
    case Greet => 8
    case AwaitVersion => 7
    case AwaitFeatures(_, _) => 6
    case Reply(_) => 5
    case AwaitAffinity(_) => 4
    case AwaitCpu(_) => 3
    case AwaitReserve(_) => 2
    case Welcome(_) => 1
    case _ => 0
  }

  // ----- one side's step -----

  lemma IntDecodes(n: u64)
    ensures Value(EncodeInt(n)) == n
  {
    Unsealed(Decoded);
    IntRoundTrip(n, []);
    assert EncodeInt(n) + [] == EncodeInt(n);
    assert EncodeInt(n)[..8] == EncodeInt(n);
  }

  lemma WordDecodes(n: u64)
    ensures Value(Word(n)) == n
  {
    Unsealed(EncodeInt);
    IntDecodes(n);
  }

  /** A step of the client on the bytes it expects next. */
  ghost predicate ClientAdvances(p: Params, c: Client, chunk: seq<byte>)
    requires VersionsOk(p) && ClientOk(p, c)
  {
    && |chunk| == ClientNeeds(c) && !ClientDone(c)
    && var (c', out) := ClientStep(p, c, chunk);
       && ClientOk(p, c')
       && ClientExpects(p, c) == chunk + ClientExpects(p, c')
       && ClientOwes(p, c) == out + ClientOwes(p, c')
       && ClientRank(p, c') < ClientRank(p, c)
  }

  lemma FeatureCountStep(p: Params, c: Client) returns (chunk: seq<byte>)
    requires VersionsOk(p) && ClientOk(p, c) && c.Features? && c.strings.Count? && Vouched(p, c) && Clears(p, c)
    ensures ClientAdvances(p, c, chunk)
  {
    var n := |p.features|;
    chunk := EncodeInt(n);
    IntDecodes(n);
    assert p.features[0..] == p.features;
    Assoc(EncodeInt(n), EncodeItems(EncodeString, p.features), WelcomeBytes(p));
    if n == 0 {
      assert EncodeItems(EncodeString, p.features) + WelcomeBytes(p) == WelcomeBytes(p);
    }
    assert OptionBytes() == [] + OptionBytes();
  }

  lemma FeatureLengthStep(p: Params, c: Client) returns (chunk: seq<byte>)
    requires VersionsOk(p) && ClientOk(p, c) && c.Features? && c.strings.Length? && Vouched(p, c) && Clears(p, c)
    ensures ClientAdvances(p, c, chunk)
  {
    var i := |p.features| - c.strings.left;
    var f := p.features[i];
    chunk := EncodeInt(|f|);
    IntDecodes(|f|);
    EncodeItemsFirst(EncodeString, p.features[i..], WelcomeBytes(p));
    assert p.features[i..][1..] == p.features[i + 1..];
    Assoc(EncodeInt(|f|), StringBody(f), FeaturesFrom(p, i + 1));
    assert OptionBytes() == [] + OptionBytes();
  }

  lemma FeatureBodyStep(p: Params, c: Client) returns (chunk: seq<byte>)
    requires VersionsOk(p) && ClientOk(p, c) && c.Features? && c.strings.Body? && Vouched(p, c) && Clears(p, c)
    ensures ClientAdvances(p, c, chunk)
  {
    var i := |p.features| - c.strings.left;
    var f := p.features[i];
    chunk := StringBody(f);
    assert chunk[|f|..] == Zeros(Padding(|f|));
    assert AllZero(chunk[|f|..]);
    assert OptionBytes() == [] + OptionBytes();
    if c.strings.left == 1 {
      assert p.features[i + 1..] == [];
      assert FeaturesFrom(p, i + 1) == WelcomeBytes(p);
      assert ClientStep(p, c, chunk) == (Options(c.version), []);
    } else {
      assert ClientStep(p, c, chunk) == (Features(c.version, Length(c.strings.left - 1, c.strings.held)), []);
    }
  }

  lemma DaemonLengthStep(p: Params, c: Client) returns (chunk: seq<byte>)
    requires VersionsOk(p) && ClientOk(p, c) && c.DaemonLength? && Clears(p, c)
    ensures ClientAdvances(p, c, chunk)
  {
    chunk := EncodeInt(|p.daemon|);
    IntDecodes(|p.daemon|);
    Assoc(EncodeInt(|p.daemon|), StringBody(p.daemon), WelcomeTail());
  }

  lemma DaemonBodyStep(p: Params, c: Client) returns (chunk: seq<byte>)
    requires VersionsOk(p) && ClientOk(p, c) && c.DaemonBody?
    ensures ClientAdvances(p, c, chunk)
  {
    chunk := StringBody(p.daemon);
    assert chunk[|p.daemon|..] == Zeros(Padding(|p.daemon|));
  }

  lemma TrustStep(p: Params, c: Client) returns (chunk: seq<byte>)
    requires VersionsOk(p) && ClientOk(p, c) && c.Trust?
    ensures ClientAdvances(p, c, chunk)
  {
    chunk := Word(0);
    WordDecodes(0);
    var next := Last(c.version);
    assert ClientStep(p, c, chunk) == (next, []);
    assert ClientExpects(p, c) == chunk + ClientExpects(p, next);
  }

  lemma LastStep(p: Params, c: Client) returns (chunk: seq<byte>)
    requires VersionsOk(p) && ClientOk(p, c) && c.Last?
    ensures ClientAdvances(p, c, chunk)
  {
    chunk := Word(STDERR_LAST);
    WordDecodes(STDERR_LAST);
  }

  lemma MagicStep(p: Params) returns (chunk: seq<byte>)
    requires VersionsOk(p)
    ensures ClientAdvances(p, Magic, chunk)
  {
    chunk := Word(SERVER_MAGIC);
    WordDecodes(SERVER_MAGIC);
    assert [] + Announcement(p) == Announcement(p);
  }

  lemma ReadVersionStep(p: Params) returns (chunk: seq<byte>)
    requires VersionsOk(p)
    ensures ClientAdvances(p, ReadVersion, chunk)
  {
    chunk := Word(ToWire(p.server));
    WordDecodes(ToWire(p.server));
    VersionRoundTrip(p.server);
    assert [] + Announcement(p) == Announcement(p);
  }

  lemma NothingFirst(s: seq<byte>)
    ensures [] + s == s
  {
  }

  lemma ClientWrite(p: Params, c: Client) returns (chunk: seq<byte>)
    requires VersionsOk(p) && ClientOk(p, c) && (c.Hello? || c.Announce? || c.Options?)
    ensures ClientAdvances(p, c, chunk)
  {
    chunk := [];
    NothingFirst(ClientExpects(p, c));
    if c.Hello? {
      Assoc(Word(CLIENT_MAGIC), Word(ToWire(p.client)), Announcement(p));
    }
  }

  lemma ClientStepOk(p: Params, c: Client) returns (chunk: seq<byte>)
    requires VersionsOk(p) && ClientOk(p, c) && !ClientDone(c) && Vouched(p, c) && Clears(p, c)
    ensures ClientAdvances(p, c, chunk)
  {
    match c
    case Features(_, Count) => chunk := FeatureCountStep(p, c);
    case Features(_, Length(_, _)) => chunk := FeatureLengthStep(p, c);
    case Features(_, Body(_, _, _)) => chunk := FeatureBodyStep(p, c);
    case DaemonLength(_) => chunk := DaemonLengthStep(p, c);
    case DaemonBody(_, _) => chunk := DaemonBodyStep(p, c);
    case Trust(_) => chunk := TrustStep(p, c);
    case Last(_) => chunk := LastStep(p, c);
    case Magic => chunk := MagicStep(p);
    case ReadVersion => chunk := ReadVersionStep(p);
    case _ => chunk := ClientWrite(p, c);
  }

  ghost predicate ServerAdvances(p: Params, s: Server, chunk: seq<byte>)
    requires VersionsOk(p) && ServerOk(p, s)
  {
    && |chunk| == ServerNeeds(s) && !ServerDone(s)
    && var (s', out) := ServerStep(p, s, chunk);
       && ServerOk(p, s')
       && ServerExpects(p, s) == chunk + ServerExpects(p, s')
       && ServerOwes(p, s) == out + ServerOwes(p, s')
       && ServerRank(s') < ServerRank(s)
  }

  lemma AwaitMagicStep(p: Params) returns (chunk: seq<byte>)
    requires VersionsOk(p)
    ensures ServerAdvances(p, AwaitMagic, chunk)
  {
    chunk := Word(CLIENT_MAGIC);
    WordDecodes(CLIENT_MAGIC);
    assert [] + Greeting(p) == Greeting(p);
  }

  lemma AwaitVersionStep(p: Params) returns (chunk: seq<byte>)
    requires VersionsOk(p)
    ensures ServerAdvances(p, AwaitVersion, chunk)
  {
    chunk := Word(ToWire(p.client));
    WordDecodes(ToWire(p.client));
    VersionRoundTrip(p.client);
    assert [] + FeatureReply(p) == FeatureReply(p);
  }

  lemma AwaitFeaturesStep(p: Params, s: Server) returns (chunk: seq<byte>)
    requires VersionsOk(p) && ServerOk(p, s) && s.AwaitFeatures?
    ensures ServerAdvances(p, s, chunk)
  {
    chunk := Word(0);
    WordDecodes(0);
    assert [] + FeatureReply(p) == FeatureReply(p);
  }

  lemma ServerWrite(p: Params, s: Server) returns (chunk: seq<byte>)
    requires VersionsOk(p) && ServerOk(p, s) && (s.Greet? || s.Reply? || s.Welcome?)
    ensures ServerAdvances(p, s, chunk)
  {
    chunk := [];
    assert [] + ServerExpects(p, s) == ServerExpects(p, s);
    if s.Greet? {
      Assoc(Word(SERVER_MAGIC), Word(ToWire(p.server)), FeatureReply(p));
    }
    if s.Welcome? {
      assert WelcomeBytes(p) + [] == WelcomeBytes(p);
    }
  }

  lemma ServerStepOk(p: Params, s: Server) returns (chunk: seq<byte>)
    requires VersionsOk(p) && ServerOk(p, s) && !ServerDone(s)
    ensures ServerAdvances(p, s, chunk)
  {
    if s.AwaitAffinity? || s.AwaitReserve? {
      chunk := Word(0);
      WordDecodes(0);
      assert [] + WelcomeBytes(p) == WelcomeBytes(p);
    } else if s.Greet? || s.Reply? || s.Welcome? {
      chunk := ServerWrite(p, s);
    } else if s.AwaitMagic? {
      chunk := AwaitMagicStep(p);
    } else if s.AwaitVersion? {
      chunk := AwaitVersionStep(p);
    } else {
      chunk := AwaitFeaturesStep(p, s);
    }
  }

  // ----- every step keeps the balance -----

  lemma Consume(pipe: Pipe, owed: seq<byte>, chunk: seq<byte>, rest: seq<byte>)
    requires Balanced(pipe, owed, chunk + rest) && |chunk| <= |pipe.arrived|
    ensures pipe.arrived[..|chunk|] == chunk
    ensures Balanced(Pipe(pipe.arrived[|chunk|..], pipe.flight), owed, rest)
  {
    var n := |chunk|;
    var all := pipe.arrived + (pipe.flight + owed);
    assert all[..n] == chunk && all[n..] == rest;
    assert all[..n] == pipe.arrived[..n];
    assert all[n..] == pipe.arrived[n..] + (pipe.flight + owed);
  }

  lemma Produce(pipe: Pipe, out: seq<byte>, owed: seq<byte>, expected: seq<byte>)
    requires Balanced(pipe, out + owed, expected)
    ensures Balanced(Pipe(pipe.arrived, pipe.flight + out), owed, expected)
  {
    Assoc(pipe.flight, out, owed);
  }

  lemma Carry(pipe: Pipe, n: nat, owed: seq<byte>, expected: seq<byte>)
    requires Balanced(pipe, owed, expected) && n <= |pipe.flight|
    ensures Balanced(Arrive(pipe, n), owed, expected)
  {
    assert pipe.flight == pipe.flight[..n] + pipe.flight[n..];
    Assoc(pipe.flight[..n], pipe.flight[n..], owed);
    Assoc(pipe.arrived, pipe.flight[..n], pipe.flight[n..] + owed);
  }

  // ----- no deadlock, and an end -----

  ghost predicate Stuck(s: State) {
    forall step :: !Enabled(s, step)
  }

  ghost predicate Finished(p: Params, s: State) {
    && s.client == Connected(Agreed(p)) && s.server == Ready(Agreed(p))
    && s.toServer == Pipe([], []) && s.toClient == Pipe([], [])
  }

  /** Behind what the client waits for there is at least what the server still has to say
      once it has heard the client out. */
  lemma ClientFrontier(p: Params, c: Client)
    requires ParamsOk(p) && ClientOk(p, c)
    ensures |ClientExpects(p, c)| >= ClientNeeds(c)
    ensures c.Magic? || c.ReadVersion? ==> |ClientExpects(p, c)| >= ClientNeeds(c) + |FeatureReply(p)|
    ensures c.Features? ==> |ClientExpects(p, c)| >= ClientNeeds(c) + |WelcomeBytes(p)|
  {
    if c.Features? && c.strings.Length? {
      EncodeItemsFirst(EncodeString, p.features[|p.features| - c.strings.left..], WelcomeBytes(p));
    }
  }

  lemma StuckPipes(p: Params, s: State)
    requires Inv(p, s) && Stuck(s)
    ensures s.toServer.flight == [] && s.toClient.flight == []
    ensures |s.toClient.arrived| + |ServerOwes(p, s.server)| == |ClientExpects(p, s.client)|
    ensures |s.toServer.arrived| + |ClientOwes(p, s.client)| == |ServerExpects(p, s.server)|
  {
    assert !Enabled(s, ArriveAtServer(|s.toServer.flight|)) && !Enabled(s, ArriveAtClient(|s.toClient.flight|));
  }

  /** In numbers: where both sides wait for more than has arrived, the server has finished. */
  lemma WaitingServerIsReady(p: Params, c: Client, s: Server, atServer: nat, atClient: nat)
    requires ParamsOk(p) && ClientOk(p, c) && ServerOk(p, s)
    requires atClient + |ServerOwes(p, s)| == |ClientExpects(p, c)| && atServer + |ClientOwes(p, c)| == |ServerExpects(p, s)|
    requires ClientDone(c) || atClient < ClientNeeds(c)
    requires ServerDone(s) || atServer < ServerNeeds(s)
    ensures s.Ready?
  {
    ClientFrontier(p, c);
  }

  lemma StuckServerIsReady(p: Params, s: State)
    requires ParamsOk(p) && Inv(p, s) && Stuck(s)
    ensures s.server.Ready?
  {
    StuckPipes(p, s);
    assert !Enabled(s, ClientMoves) && !Enabled(s, ServerMoves);
    WaitingServerIsReady(p, s.client, s.server, |s.toServer.arrived|, |s.toClient.arrived|);
  }

  /** The only state without a step is the one where both sides have finished, at the same
      version and with nothing left in either pipe. */
  lemma StuckIsFinished(p: Params, s: State)
    requires ParamsOk(p) && Inv(p, s) && Stuck(s)
    ensures Finished(p, s)
  {
    StuckServerIsReady(p, s);
    StuckPipes(p, s);
    assert !Enabled(s, ClientMoves);
    ClientFrontier(p, s.client);
  }

  /** Bytes still to arrive and states still to pass. */
  ghost function Remaining(p: Params, s: State): nat
    requires ClientOk(p, s.client) && ServerOk(p, s.server)
  {
    |s.toServer.flight| + |ClientOwes(p, s.client)| + |s.toClient.flight| + |ServerOwes(p, s.server)|
    + ClientRank(p, s.client) + ServerRank(s.server)
  }

  lemma ClientMoveDecreases(p: Params, s: State)
    requires VersionsOk(p) && Inv(p, s) && Enabled(s, ClientMoves) && Vouched(p, s.client) && Clears(p, s.client)
    ensures var t := Apply(p, s, ClientMoves); Inv(p, t) && Remaining(p, t) < Remaining(p, s)
  {
    var chunk := ClientStepOk(p, s.client);
    var (c, out) := ClientStep(p, s.client, chunk);
    Consume(s.toClient, ServerOwes(p, s.server), chunk, ClientExpects(p, c));
    Produce(s.toServer, out, ClientOwes(p, c), ServerExpects(p, s.server));
    assert |ClientOwes(p, s.client)| == |out| + |ClientOwes(p, c)|;
  }

  lemma ServerMoveDecreases(p: Params, s: State)
    requires VersionsOk(p) && Inv(p, s) && Enabled(s, ServerMoves)
    ensures var t := Apply(p, s, ServerMoves); Inv(p, t) && Remaining(p, t) < Remaining(p, s)
  {
    var chunk := ServerStepOk(p, s.server);
    var (t, out) := ServerStep(p, s.server, chunk);
    Consume(s.toServer, ClientOwes(p, s.client), chunk, ServerExpects(p, t));
    Produce(s.toClient, out, ServerOwes(p, t), ClientExpects(p, s.client));
    assert |ServerOwes(p, s.server)| == |out| + |ServerOwes(p, t)|;
  }

  lemma StepDecreases(p: Params, s: State, step: Step)
    requires ParamsOk(p) && Inv(p, s) && Enabled(s, step)
    ensures var t := Apply(p, s, step); Inv(p, t) && Remaining(p, t) < Remaining(p, s)
  {
    ParamsClear(p, s.client);
    match step
    case ClientMoves => ClientMoveDecreases(p, s);
    case ServerMoves => ServerMoveDecreases(p, s);
    case ArriveAtServer(n) => Carry(s.toServer, n, ClientOwes(p, s.client), ServerExpects(p, s.server));
    case ArriveAtClient(n) => Carry(s.toClient, n, ServerOwes(p, s.server), ClientExpects(p, s.client));
  }

  ghost function Moved(p: Params, s: State, step: Step): State {
    if Enabled(s, step) then Apply(p, s, step) else s
  }

  ghost function Mover(p: Params): (State, Step) -> State {
    Sealed((s: State, step: Step) => Moved(p, s, step))
  }

  ghost predicate Next(p: Params, states: seq<State>, steps: seq<Step>, i: nat) {
    i + 1 < |states| && i < |steps| && Enabled(states[i], steps[i]) && states[i + 1] == Mover(p)(states[i], steps[i])
  }

  function Initial(): State {
    State(Hello, AwaitMagic, Pipe([], []), Pipe([], []))
  }

  ghost predicate Run(p: Params, states: seq<State>, steps: seq<Step>) {
    && |states| == |steps| + 1
    && states[0] == Initial()
    && forall i: nat :: i < |steps| ==> Next(p, states, steps, i)
  }

  /** Sound, and at most `n` steps from its end. */
  ghost predicate Within(p: Params, s: State, n: int) {
    Inv(p, s) && Remaining(p, s) <= n
  }

  ghost function Sound(p: Params): (State, int) -> bool {
    Sealed((s: State, n: int) => Within(p, s, n))
  }

  lemma StepSound(p: Params, s: State, step: Step, n: int)
    requires ParamsOk(p) && Sound(p)(s, n) && Enabled(s, step)
    ensures Sound(p)(Mover(p)(s, step), n - 1)
  {
    Unsealed((s: State, n: int) => Within(p, s, n));
    Unsealed((s: State, step: Step) => Moved(p, s, step));
    StepDecreases(p, s, step);
  }

  lemma Started(p: Params)
    ensures Inv(p, Initial())
  {
    assert [] + ([] + Greeting(p)) == Greeting(p);
    var opening := ClientOwes(p, Hello);
    assert [] + ([] + opening) == opening;
  }

  lemma {:induction false} RunKeeps(p: Params, states: seq<State>, steps: seq<Step>, i: nat, n: int)
    requires ParamsOk(p) && Run(p, states, steps) && i < |states| && Sound(p)(Initial(), n)
    ensures Sound(p)(states[i], n - i)
    decreases i
  {
    if i > 0 {
      RunKeeps(p, states, steps, i - 1, n);
      assert Next(p, states, steps, i - 1);
      StepSound(p, states[i - 1], steps[i - 1], n - (i - 1));
    }
  }

  /** A bound on the length of any handshake. */
  ghost function Bound(p: Params): nat {
    Started(p);
    Remaining(p, Initial())
  }

  // ----- what each side has said -----

  /** The bytes a move put on the way. */
  function Added(before: Pipe, after: Pipe): seq<byte> {
    if |before.flight| <= |after.flight| then after.flight[|before.flight|..] else []
  }

  /** All the server has said in the first `k` steps. */
  ghost function ServerSaid(states: seq<State>, steps: seq<Step>, k: nat): seq<byte>
    requires k < |states| && k <= |steps|
  {
    if k == 0 then []
    else ServerSaid(states, steps, k - 1) +
         if steps[k - 1].ServerMoves? then Added(states[k - 1].toClient, states[k].toClient) else []
  }

  ghost function ClientSaid(states: seq<State>, steps: seq<Step>, k: nat): seq<byte>
    requires k < |states| && k <= |steps|
  {
    if k == 0 then []
    else ClientSaid(states, steps, k - 1) +
         if steps[k - 1].ClientMoves? then Added(states[k - 1].toServer, states[k].toServer) else []
  }

  lemma AddedIs(pipe: Pipe, arrived: seq<byte>, out: seq<byte>)
    ensures Added(pipe, Pipe(arrived, pipe.flight + out)) == out
  {
  }

  /** A step says what its side owed first. */
  ghost predicate SaysOwed(p: Params, s: State, step: Step, t: State)
    requires Inv(p, s) && Inv(p, t)
  {
    && ServerOwes(p, s.server) ==
       (if step.ServerMoves? then Added(s.toClient, t.toClient) else []) + ServerOwes(p, t.server)
    && ClientOwes(p, s.client) ==
       (if step.ClientMoves? then Added(s.toServer, t.toServer) else []) + ClientOwes(p, t.client)
  }

  lemma ServerMoveSays(p: Params, s: State)
    requires ParamsOk(p) && Inv(p, s) && Enabled(s, ServerMoves) && Inv(p, Apply(p, s, ServerMoves))
    ensures SaysOwed(p, s, ServerMoves, Apply(p, s, ServerMoves))
  {
    var chunk := ServerStepOk(p, s.server);
    var (t, out) := ServerStep(p, s.server, chunk);
    Consume(s.toServer, ClientOwes(p, s.client), chunk, ServerExpects(p, t));
    AddedIs(s.toClient, s.toClient.arrived, out);
    NothingFirst(ClientOwes(p, s.client));
  }

  lemma ClientMoveSays(p: Params, s: State)
    requires ParamsOk(p) && Inv(p, s) && Enabled(s, ClientMoves) && Inv(p, Apply(p, s, ClientMoves))
    ensures SaysOwed(p, s, ClientMoves, Apply(p, s, ClientMoves))
  {
    ParamsClear(p, s.client);
    var chunk := ClientStepOk(p, s.client);
    var (c, out) := ClientStep(p, s.client, chunk);
    Consume(s.toClient, ServerOwes(p, s.server), chunk, ClientExpects(p, c));
    AddedIs(s.toServer, s.toServer.arrived, out);
    NothingFirst(ServerOwes(p, s.server));
  }

  lemma StepSays(p: Params, s: State, step: Step)
    requires ParamsOk(p) && Inv(p, s) && Enabled(s, step) && Inv(p, Apply(p, s, step))
    ensures SaysOwed(p, s, step, Apply(p, s, step))
  {
    NothingFirst(ServerOwes(p, s.server));
    NothingFirst(ClientOwes(p, s.client));
    match step
    case ClientMoves => ClientMoveSays(p, s);
    case ServerMoves => ServerMoveSays(p, s);
    case ArriveAtServer(n) =>
    case ArriveAtClient(n) =>
  }

  /** What has been said and what is owed is the whole conversation. */
  ghost predicate Accounted(p: Params, states: seq<State>, steps: seq<Step>, k: nat)
    requires k < |states| && k <= |steps| && Inv(p, states[k])
  {
    && ServerSaid(states, steps, k) + ServerOwes(p, states[k].server) == Greeting(p)
    && ClientSaid(states, steps, k) + ClientOwes(p, states[k].client) == ClientOwes(p, Hello)
  }

  lemma StepInRun(p: Params, states: seq<State>, steps: seq<Step>, k: nat)
    requires ParamsOk(p) && Run(p, states, steps) && k < |steps| && Inv(p, states[k])
    ensures Inv(p, states[k + 1]) && SaysOwed(p, states[k], steps[k], states[k + 1])
  {
    assert Next(p, states, steps, k);
    Unsealed((s: State, step: Step) => Moved(p, s, step));
    StepDecreases(p, states[k], steps[k]);
    StepSays(p, states[k], steps[k]);
  }

  lemma {:induction false} RunAccounts(p: Params, states: seq<State>, steps: seq<Step>, k: nat)
    requires ParamsOk(p) && Run(p, states, steps) && k < |states|
    ensures Inv(p, states[k]) && Accounted(p, states, steps, k)
    decreases k
  {
    if k == 0 {
      Started(p);
      NothingFirst(Greeting(p));
      NothingFirst(ClientOwes(p, Hello));
    } else {
      RunAccounts(p, states, steps, k - 1);
      StepInRun(p, states, steps, k - 1);
      var heard := if steps[k - 1].ServerMoves? then Added(states[k - 1].toClient, states[k].toClient) else [];
      var asked := if steps[k - 1].ClientMoves? then Added(states[k - 1].toServer, states[k].toServer) else [];
      Assoc(ServerSaid(states, steps, k - 1), heard, ServerOwes(p, states[k].server));
      Assoc(ClientSaid(states, steps, k - 1), asked, ClientOwes(p, states[k].client));
    }
  }

  // ----- the handshake, spelled out -----

  /** Version 1.`minor` or any later major. */
  predicate FromMinor(v: Version, minor: nat) {
    v.major > 1 || (v.major == 1 && v.minor >= minor)
  }

  /** One major, both sides at 1.35 or later, a daemon string of at most 1024 bytes and, where
      both speak 1.38, at most 64 features of at most 1024 bytes. */
  predicate Speakable(p: Params) {
    && p.client.major == p.server.major && FromMinor(p.client, 35) && FromMinor(p.server, 35)
    && |p.daemon| <= 1024
    && (FromMinor(p.client, 38) && FromMinor(p.server, 38) ==>
          |p.features| <= 64 && forall i :: 0 <= i < |p.features| ==> |p.features[i]| <= 1024)
  }

  function Lower(p: Params): Version {
    Version(p.client.major, if p.client.minor < p.server.minor then p.client.minor else p.server.minor)
  }

  /** The server's side: magic, version, from 1.38 on its features, then the daemon string, the
      trust and the end of the log. */
  function ServerSpeech(p: Params): seq<byte> {
    EncodeInt(0x6478_696f) + (EncodeInt(256 * p.server.major + p.server.minor)
    + ((if FromMinor(Lower(p), 38) then EncodeList(EncodeString, p.features) else [])
    + (EncodeString(p.daemon) + (EncodeInt(0) + EncodeInt(0x616c_7473)))))
  }

  /** The client's: magic, version, from 1.38 on an empty list of features, and two zeros. */
  function ClientSpeech(p: Params): seq<byte> {
    EncodeInt(0x6e69_7863) + (EncodeInt(256 * p.client.major + p.client.minor)
    + ((if FromMinor(Lower(p), 38) then EncodeInt(0) else []) + (EncodeInt(0) + EncodeInt(0))))
  }

  lemma SpeakableIs(p: Params)
    ensures Speakable(p) <==> ParamsOk(p)
    ensures Speakable(p) ==> Agreed(p) == Lower(p) && (WithFeatures(p) <==> FromMinor(Lower(p), 38))
  {
  }

  lemma ServerSpeechIs(p: Params)
    requires Speakable(p)
    ensures Greeting(p) == ServerSpeech(p)
  {
    SpeakableIs(p);
    Unsealed(EncodeInt);
    NothingFirst(WelcomeBytes(p));
  }

  lemma ClientSpeechIs(p: Params)
    requires Speakable(p)
    ensures ClientOwes(p, Hello) == ClientSpeech(p)
  {
    SpeakableIs(p);
    Unsealed(EncodeInt);
    NothingFirst(OptionBytes());
  }

  /** Both sides have finished at the lower version, and each has read all that was written. */
  ghost predicate Concluded(p: Params, s: State) {
    && s.client == Connected(Lower(p)) && s.server == Ready(Lower(p))
    && s.toServer == Pipe([], []) && s.toClient == Pipe([], [])
  }

  /** However the two sides and the network are interleaved, the handshake takes a bounded
      number of steps, neither side ever fails, and it cannot stop before both sides have
      finished at the lower of the two versions with both pipes empty. */
  lemma HandshakeSucceeds(p: Params, states: seq<State>, steps: seq<Step>)
    requires Speakable(p) && Run(p, states, steps)
    ensures |steps| <= Bound(p)
    ensures var s := states[|steps|];
            !s.client.ClientFailed? && !s.server.ServerFailed? && (Stuck(s) <==> Concluded(p, s))
  {
    SpeakableIs(p);
    RunEnds(p, states, steps);
    FinishedIs(p, states[|steps|]);
  }

  lemma FinishedIs(p: Params, s: State)
    requires Speakable(p)
    ensures Finished(p, s) <==> Concluded(p, s)
  {
    SpeakableIs(p);
  }

  lemma RunEnds(p: Params, states: seq<State>, steps: seq<Step>)
    requires ParamsOk(p) && Run(p, states, steps)
    ensures |steps| <= Bound(p)
    ensures var s := states[|steps|];
            !s.client.ClientFailed? && !s.server.ServerFailed? && (Stuck(s) <==> Finished(p, s))
  {
    RunIsSound(p, states, steps);
    var s := states[|steps|];
    if Stuck(s) { StuckIsFinished(p, s); }
  }

  /** All the while each side says nothing but its part, and at the end it has said all of it. */
  lemma HandshakeTranscript(p: Params, states: seq<State>, steps: seq<Step>)
    requires Speakable(p) && Run(p, states, steps)
    ensures ServerSaid(states, steps, |steps|) <= ServerSpeech(p) && ClientSaid(states, steps, |steps|) <= ClientSpeech(p)
    ensures Concluded(p, states[|steps|]) ==>
      ServerSaid(states, steps, |steps|) == ServerSpeech(p) && ClientSaid(states, steps, |steps|) == ClientSpeech(p)
  {
    SpeakableIs(p);
    RunAccounts(p, states, steps, |steps|);
    ServerSpeechIs(p);
    ClientSpeechIs(p);
    NothingLast(ServerSaid(states, steps, |steps|));
    NothingLast(ClientSaid(states, steps, |steps|));
  }

  lemma NothingLast(s: seq<byte>)
    ensures s + [] == s
  {
  }

  lemma RunIsSound(p: Params, states: seq<State>, steps: seq<Step>)
    requires ParamsOk(p) && Run(p, states, steps)
    ensures |steps| <= Bound(p) && Inv(p, states[|steps|])
  {
    Unsealed((s: State, n: int) => Within(p, s, n));
    Started(p);
    RunKeeps(p, states, steps, |steps|, Bound(p));
  }


  // ----- when it does not succeed: a limit is broken -----

  /** Lengths of vectors on a 64-bit machine. */
  predicate Sized(p: Params) {
    && |p.features| <= MAX_U64 && |p.daemon| <= MAX_U64
    && forall i :: 0 <= i < |p.features| ==> |p.features[i]| <= MAX_U64
  }

  /** The client has failed, or all it has read was within the limits. */
  ghost predicate Checked(p: Params, s: State) {
    s.client.ClientFailed? || (Inv(p, s) && Vouched(p, s.client))
  }

  lemma FitsOneMore(features: seq<seq<byte>>, i: nat)
    requires i < |features| && FeaturesFit(features[..i]) && |features[i]| <= FEATURE_BYTES
    ensures FeaturesFit(features[..i + 1])
  {
    assert features[..i + 1] == features[..i] + [features[i]];
  }

  lemma VouchedFeatures(p: Params, c: Client, chunk: seq<byte>)
    requires ClientOk(p, c) && c.Features? && Vouched(p, c) && Clears(p, c) && |chunk| == ClientNeeds(c)
    requires c.strings.Count? ==> Value(chunk) == |p.features|
    requires ClientOk(p, ClientStep(p, c, chunk).0)
    ensures Vouched(p, ClientStep(p, c, chunk).0)
  {
    var n := |p.features|;
    match c.strings
    case Count =>
      assert p.features[..0] == [];
      assert n == 0 ==> p.features == [];
    case Length(left, _) =>
      FitsOneMore(p.features, n - left);
    case Body(left, _, _) =>
      assert left == 1 ==> p.features[..n] == p.features;
  }

  lemma CountChunk(p: Params, chunk: seq<byte>, rest: seq<byte>)
    requires WithFeatures(p) && FeatureReply(p) == chunk + rest && |chunk| == 8 && |p.features| <= MAXIMUM_FEATURES
    ensures Value(chunk) == |p.features|
  {
    var items := EncodeItems(EncodeString, p.features);
    Assoc(EncodeInt(|p.features|), items, WelcomeBytes(p));
    assert FeatureReply(p)[..8] == EncodeInt(|p.features|);
    assert FeatureReply(p)[..8] == chunk;
    IntDecodes(|p.features|);
  }

  /** Past a check, the client has found out. */
  lemma VouchedStep(p: Params, c: Client, chunk: seq<byte>)
    requires VersionsOk(p) && ClientOk(p, c) && !ClientDone(c) && Vouched(p, c) && Clears(p, c) && ClientAdvances(p, c, chunk)
    ensures Vouched(p, ClientStep(p, c, chunk).0)
  {
    if c.Features? {
      if c.strings.Count? {
        CountChunk(p, chunk, ClientExpects(p, ClientStep(p, c, chunk).0));
      }
      VouchedFeatures(p, c, chunk);
    }
  }

  /** At a broken limit the client fails. */
  lemma BrokenLimitFails(p: Params, c: Client) returns (chunk: seq<byte>, rest: seq<byte>)
    requires Sized(p) && ClientOk(p, c) && !ClientDone(c) && !Clears(p, c)
    ensures ClientExpects(p, c) == chunk + rest && |chunk| == ClientNeeds(c)
    ensures ClientStep(p, c, chunk).0 == ClientFailed
  {
    if c.DaemonLength? {
      chunk, rest := EncodeInt(|p.daemon|), StringBody(p.daemon) + WelcomeTail();
      IntDecodes(|p.daemon|);
      Assoc(chunk, StringBody(p.daemon), WelcomeTail());
    } else if c.strings.Count? {
      chunk, rest := EncodeInt(|p.features|), EncodeItems(EncodeString, p.features) + WelcomeBytes(p);
      IntDecodes(|p.features|);
      Assoc(chunk, EncodeItems(EncodeString, p.features), WelcomeBytes(p));
    } else {
      var i := |p.features| - c.strings.left;
      var f := p.features[i];
      chunk, rest := EncodeInt(|f|), StringBody(f) + FeaturesFrom(p, i + 1);
      IntDecodes(|f|);
      EncodeItemsFirst(EncodeString, p.features[i..], WelcomeBytes(p));
      assert p.features[i..][1..] == p.features[i + 1..];
      Assoc(chunk, StringBody(f), FeaturesFrom(p, i + 1));
    }
  }

  lemma ClientMoveChecked(p: Params, s: State)
    requires VersionsOk(p) && Sized(p) && Inv(p, s) && Vouched(p, s.client) && Enabled(s, ClientMoves)
    ensures Checked(p, Apply(p, s, ClientMoves))
  {
    if Clears(p, s.client) {
      ClientMoveDecreases(p, s);
      var chunk := ClientStepOk(p, s.client);
      Consume(s.toClient, ServerOwes(p, s.server), chunk, ClientExpects(p, ClientStep(p, s.client, chunk).0));
      VouchedStep(p, s.client, chunk);
    } else {
      var chunk, rest := BrokenLimitFails(p, s.client);
      Consume(s.toClient, ServerOwes(p, s.server), chunk, rest);
    }
  }

  lemma StepChecked(p: Params, s: State, step: Step)
    requires VersionsOk(p) && Sized(p) && Checked(p, s) && Enabled(s, step)
    ensures Checked(p, Apply(p, s, step))
  {
    if !s.client.ClientFailed? {
      match step
      case ClientMoves => ClientMoveChecked(p, s);
      case ServerMoves => ServerMoveDecreases(p, s);
      case ArriveAtServer(n) => Carry(s.toServer, n, ClientOwes(p, s.client), ServerExpects(p, s.server));
      case ArriveAtClient(n) => Carry(s.toClient, n, ServerOwes(p, s.server), ClientExpects(p, s.client));
    }
  }

  // ----- or the server's version is refused -----

  predicate ServerRefused(p: Params) {
    p.server.major != p.client.major || !AtLeast(p.server, MINIMUM)
  }

  ghost function ServerHead(p: Params): seq<byte> {
    Word(SERVER_MAGIC) + Word(ToWire(p.server))
  }

  function Whole(pipe: Pipe): seq<byte> {
    pipe.arrived + pipe.flight
  }

  /** The client gets no further than the server's version. */
  ghost predicate Repelled(p: Params, s: State) {
    var sent := Whole(s.toClient);
    match s.client
    case ClientFailed => true
    case ReadVersion => Word(ToWire(p.server)) <= sent && !s.server.AwaitMagic? && !s.server.Greet?
    case Hello => HeadFirst(p, s.server, sent)
    case Magic => HeadFirst(p, s.server, sent)
    case _ => false
  }

  ghost predicate HeadFirst(p: Params, server: Server, sent: seq<byte>) {
    match server
    case AwaitMagic => sent == []
    case Greet => sent == []
    case ServerFailed => sent == [] || ServerHead(p) <= sent
    case _ => ServerHead(p) <= sent
  }

  lemma StartsWith(head: seq<byte>, s: seq<byte>, n: nat)
    requires head <= s && n <= |head|
    ensures s[..n] == head[..n] && head[n..] <= s[n..] && (n == |head| ==> s[..n] == head)
  {
  }

  lemma TakenFromWhole(pipe: Pipe, n: nat)
    requires n <= |pipe.arrived|
    ensures pipe.arrived[..n] == Whole(pipe)[..n] && Whole(Pipe(pipe.arrived[n..], pipe.flight)) == Whole(pipe)[n..]
    ensures Whole(pipe)[0..] == Whole(pipe)
  {
  }

  lemma ArriveKeepsWhole(pipe: Pipe, n: nat)
    requires n <= |pipe.flight|
    ensures Whole(Arrive(pipe, n)) == Whole(pipe)
  {
    Assoc(pipe.arrived, pipe.flight[..n], pipe.flight[n..]);
    assert pipe.flight[..n] + pipe.flight[n..] == pipe.flight;
  }

  lemma ClientMoveRepelled(p: Params, s: State)
    requires ServerRefused(p) && Repelled(p, s) && Enabled(s, ClientMoves)
    ensures Repelled(p, Apply(p, s, ClientMoves))
  {
    TakenFromWhole(s.toClient, ClientNeeds(s.client));
    if s.client.ReadVersion? {
      StartsWith(Word(ToWire(p.server)), Whole(s.toClient), 8);
      WordDecodes(ToWire(p.server));
      VersionRoundTrip(p.server);
    } else if s.client.Magic? {
      StartsWith(ServerHead(p), Whole(s.toClient), 8);
      assert ServerHead(p)[8..] == Word(ToWire(p.server));
    }
  }

  lemma ServerMoveRepelled(p: Params, s: State)
    requires Repelled(p, s) && Enabled(s, ServerMoves)
    ensures Repelled(p, Apply(p, s, ServerMoves))
  {
    var (t, out) := ServerStep(p, s.server, s.toServer.arrived[..ServerNeeds(s.server)]);
    Assoc(s.toClient.arrived, s.toClient.flight, out);
    NothingFirst(out);
  }

  lemma StepRepelled(p: Params, s: State, step: Step)
    requires ServerRefused(p) && Repelled(p, s) && Enabled(s, step)
    ensures Repelled(p, Apply(p, s, step))
  {
    match step
    case ClientMoves => ClientMoveRepelled(p, s);
    case ServerMoves => ServerMoveRepelled(p, s);
    case ArriveAtServer(n) =>
    case ArriveAtClient(n) => ArriveKeepsWhole(s.toClient, n);
  }

  // ----- or the client's -----

  predicate ClientRefused(p: Params) {
    !ServerRefused(p) && !AtLeast(p.client, MINIMUM)
  }

  ghost function ClientHead(p: Params): seq<byte> {
    Word(CLIENT_MAGIC) + Word(ToWire(p.client))
  }

  /** What the server has to read: it gets no further than the client's version. */
  ghost predicate ServerStalls(p: Params, s: State) {
    var sent := Whole(s.toServer);
    match s.server
    case AwaitMagic => if s.client.Hello? then sent == [] else ClientHead(p) <= sent
    case Greet => Word(ToWire(p.client)) <= sent && !s.client.Hello?
    case AwaitVersion => Word(ToWire(p.client)) <= sent && !s.client.Hello?
    case ServerFailed => !s.client.Hello?
    case _ => false
  }

  /** What the client has to read: nothing behind the server's version. */
  ghost predicate ClientStalls(p: Params, s: State) {
    var sent := Whole(s.toClient);
    match s.client
    case Hello => sent == [] && s.server.AwaitMagic?
    case Magic => sent == if s.server.AwaitMagic? || s.server.Greet? then [] else ServerHead(p)
    case ReadVersion => sent == Word(ToWire(p.server)) && !s.server.AwaitMagic? && !s.server.Greet?
    case Options(_) => sent == [] && !s.server.AwaitMagic? && !s.server.Greet?
    case DaemonLength(_) => sent == [] && !s.server.AwaitMagic? && !s.server.Greet?
    case Last(_) => sent == [] && !s.server.AwaitMagic? && !s.server.Greet?
    case ClientFailed => true
    case _ => false
  }

  ghost predicate Stalled(p: Params, s: State) {
    ServerStalls(p, s) && ClientStalls(p, s)
  }

  lemma LowerClient(p: Params)
    requires ClientRefused(p)
    ensures Min(p.client, p.server) == p.client && Min(p.server, p.client) == p.client
    ensures !AtLeast(p.client, MINIMUM) && !AtLeast(p.client, FEATURE_NEGOTIATION) && p.server.major == p.client.major
    ensures AtLeast(p.server, MINIMUM)
  {
  }

  lemma ClientMoveStalled(p: Params, s: State)
    requires ClientRefused(p) && Stalled(p, s) && Enabled(s, ClientMoves)
    ensures Stalled(p, Apply(p, s, ClientMoves))
  {
    LowerClient(p);
    TakenFromWhole(s.toClient, ClientNeeds(s.client));
    var (c, out) := ClientStep(p, s.client, s.toClient.arrived[..ClientNeeds(s.client)]);
    Assoc(s.toServer.arrived, s.toServer.flight, out);
    NothingFirst(out);
    if s.client.ReadVersion? {
      StartsWith(Word(ToWire(p.server)), Whole(s.toClient), 8);
      WordDecodes(ToWire(p.server));
      VersionRoundTrip(p.server);
    } else if s.client.Magic? {
      StartsWith(ServerHead(p), Whole(s.toClient), 8);
      WordDecodes(SERVER_MAGIC);
      assert ServerHead(p)[8..] == Word(ToWire(p.server));
    }
  }

  lemma ServerMoveStalled(p: Params, s: State)
    requires ClientRefused(p) && Stalled(p, s) && Enabled(s, ServerMoves)
    ensures Stalled(p, Apply(p, s, ServerMoves))
  {
    LowerClient(p);
    TakenFromWhole(s.toServer, ServerNeeds(s.server));
    var (t, out) := ServerStep(p, s.server, s.toServer.arrived[..ServerNeeds(s.server)]);
    Assoc(s.toClient.arrived, s.toClient.flight, out);
    NothingFirst(out);
    if s.server.AwaitMagic? {
      StartsWith(ClientHead(p), Whole(s.toServer), 8);
      WordDecodes(CLIENT_MAGIC);
      assert ClientHead(p)[8..] == Word(ToWire(p.client));
    } else if s.server.AwaitVersion? {
      StartsWith(Word(ToWire(p.client)), Whole(s.toServer), 8);
      WordDecodes(ToWire(p.client));
      VersionRoundTrip(p.client);
    }
  }

  lemma StepStalled(p: Params, s: State, step: Step)
    requires ClientRefused(p) && Stalled(p, s) && Enabled(s, step)
    ensures Stalled(p, Apply(p, s, step))
  {
    match step
    case ClientMoves => ClientMoveStalled(p, s);
    case ServerMoves => ServerMoveStalled(p, s);
    case ArriveAtServer(n) => ArriveKeepsWhole(s.toServer, n);
    case ArriveAtClient(n) => ArriveKeepsWhole(s.toClient, n);
  }

  // ----- in every run -----

  /** What every state keeps where the handshake cannot succeed. */
  ghost predicate Hopeless(p: Params, s: State) {
    if ServerRefused(p) then Repelled(p, s)
    else if ClientRefused(p) then Stalled(p, s)
    else Checked(p, s)
  }

  ghost function Doomed(p: Params): State -> bool {
    Sealed((s: State) => Hopeless(p, s))
  }

  lemma StepHopeless(p: Params, s: State, step: Step)
    requires Sized(p) && Hopeless(p, s) && Enabled(s, step)
    ensures Hopeless(p, Apply(p, s, step))
  {
    if ServerRefused(p) {
      StepRepelled(p, s, step);
    } else if ClientRefused(p) {
      StepStalled(p, s, step);
    } else {
      StepChecked(p, s, step);
    }
  }

  lemma StepDoomed(p: Params, s: State, step: Step)
    requires Sized(p) && Doomed(p)(s) && Enabled(s, step)
    ensures Doomed(p)(Mover(p)(s, step))
  {
    Unsealed((s: State) => Hopeless(p, s));
    Unsealed((s: State, step: Step) => Moved(p, s, step));
    StepHopeless(p, s, step);
  }

  lemma {:induction false} RunDoomed(p: Params, states: seq<State>, steps: seq<Step>, i: nat)
    requires Sized(p) && Run(p, states, steps) && i < |states|
    ensures Doomed(p)(states[i])
    decreases i
  {
    if i == 0 {
      Unsealed((s: State) => Hopeless(p, s));
      Started(p);
    } else {
      RunDoomed(p, states, steps, i - 1);
      assert Next(p, states, steps, i - 1);
      StepDoomed(p, states[i - 1], steps[i - 1]);
    }
  }

  /** And only then: where one of the conditions fails, no run connects the client. */
  lemma HandshakeFails(p: Params, states: seq<State>, steps: seq<Step>)
    requires Sized(p) && !Speakable(p) && Run(p, states, steps)
    ensures forall i :: 0 <= i < |states| ==> !states[i].client.Connected?
  {
    SpeakableIs(p);
    forall i | 0 <= i < |states| ensures !states[i].client.Connected? {
      RunDoomed(p, states, steps, i);
      Unsealed((s: State) => Hopeless(p, s));
    }
  }
}
