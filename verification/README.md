# Telchar: orderings, worker protocol, capacity ledgers and pricing

Telchar builds Nix derivations on remote backends. This project models the parts of it on
which a build's correctness rests, and proves what they promise.

- **Transfer order** (`Basics`, `Bytes`, `ReferenceGraph`, `InputOrder`, `OutputOrder`, `NarWriter`).
  The Nomad worker orders requested inputs with dependency counters and an ordered ready
  set; the worker and the static SSH backend order outputs by rescanning a pending list; the
  worker cuts an output's NAR into chunks, holding back the last one. The graph theory behind
  them is proved once: a blocked set contains a cycle, and the order that takes the least
  ready path first is the lexicographically least of all orders.
- **Nix worker protocol** (`Wire`, `Codec`, `Streams`, `Budget`, `Metered`, `Checked`,
  `Stderr`, `Handshake`, `HandshakeSides`, `StorePaths`, `BuildDerivation`, `AddMultiple`, `Queries`). Bytes are
  sequences of numbers below 256. Grammars are functions from bytes to a value and a rest;
  readers and writers are imperative and proved to follow them. Decoders charge what they
  keep to a session budget and give it back on failure. The handshake is a system of two
  processes over two byte pipes, and each side alone against any bytes.
- **Capacity** (`BackendPool`, `Rendezvous`, `Admission`, `SessionHeader`). Mutex regions and
  compare-exchange steps are atomic steps of state machines whose every run is considered;
  the same regions appear as methods on classes that update their fields.
- **Pricing** (`Pricing`). Decimal dollar prices become whole picodollars, rounded up, in
  checked 64-bit arithmetic.

Time is an integer that does not decrease. Clocks, sockets, the database, the receiver of an
uploaded NAR and which workers have finished are parameters or arbitrary choices. Addresses
have 64 bits, so `size_of::<Vec<u8>>()` is 24.

Where a decoder's proof passes on a grammar without looking into it, the grammar is under a
seal (`Streams.Sealed`), a value known to equal another only where `Unsealed` says so. A
sealed grammar is the grammar; the seal only keeps the verifier from unfolding it.

What a message, a path, a price or an order is, is said twice: once as the code computes it and
once spelled out, in literal bytes, limits and tags or on the caller's own data, and the two are
proved equal for all inputs (the members named `…Iff`, `…Are`, `…Is` and `…OnWire` in the table).

Findings about the code, each stated by the members named:

- The NAR writer's loop never ends on input beyond the whole chunks that cover the announced
  size (`NarWriter.WriteEndsIffItFits`), and an empty NAR cannot be finished. The writer's only
  feeder, `nar_from_path` (crates/nix-worker-protocol/src/client.rs:548-563), never writes beyond
  the announced size, so it does not reach that loop; `NarWriter.ExportOutput` proves that use.
- A build-log line is forwarded only if the first field of its result is a string
  (`Stderr.ReadReply`).
- The client lets through build requests that the server refuses: those with zero bytes, `=` in
  keys or repeated paths (`BuildDerivation.ClientBuildArrivesIff`;
  `BuildDerivation.SmallBuildArrivesIff` is one). It also lets through repeated targets
  (`Queries.MissingRequestArrivesIff`; `Queries.RepeatedPathIsRefused` is one).
- The server writes path infos that the client does not read back
  (`Queries.PathInfoReadBackIff`; `Queries.CapitalHashIsNotReadBack` is one).
- Reloading with a pool that has handed out permits would falsify the ledger
  (`BackendPool.ReplaceKeepsIff`; `BackendPool.BusyCandidateBreaksCount` is a run that does). The
  only caller (crates/telchar/src/backend/routing.rs:249-274) passes a pool composed just
  before, which has handed out none; `BackendPool.RunConserves` proves that use.
- A connection can reach a registration with a socket deadline from an earlier registration of
  the same intent, and that deadline can have passed (`Rendezvous.SocketDeadlineCanBePast`). It
  cannot exactly when the entry's deadline is not behind the socket's
  (`Rendezvous.DeliversInTimeIff`), and never where an intent is registered once
  (`Rendezvous.SoleRegistrationInTime`). The only caller of `register`
  (crates/telchar/src/microvm/execution.rs:298) passes an intent that was drawn at random for
  its launch (crates/telchar/src/service/config/microvm.rs:279-281), so the failing run needs a
  second `register` of one intent through the public interface.

## Model

| member | source | states |
|---|---|---|
| `InputOrder.OrderRequestedInputs` | crates/telchar-nomad-worker/src/lib.rs:1139-1207 | the counters, the reverse adjacency map and the ordered ready set report a repeated path, a path without an entry or a circle of references if and only if the request and the manifest's last entries have one, in that order, and otherwise give every requested path once, behind what its last entry refers to, in the list that is smaller than any other such list where the two part; the "dependency is invalid" errors are unreachable |
| `InputOrder.CountDependencies` | crates/telchar-nomad-worker/src/lib.rs:1163-1182 | every counter starts at the number of requested references of its path, itself excepted, and each path's dependents are listed once each |
| `InputOrder.EmitReady` | crates/telchar-nomad-worker/src/lib.rs:1184-1202 | the loop over the ready set emits exactly the plan that takes the least ready path each time, and never finds a counter missing or at zero |
| `InputOrder.ReleaseDependents` | crates/telchar-nomad-worker/src/lib.rs:1191-1201 | emitting a path lowers exactly its dependents' counters by one and makes ready exactly those that reach zero; no counter is missing or already zero when the dependents are distinct and waiting |
| `InputOrder.OrderedIffAcyclic` | crates/telchar-nomad-worker/src/lib.rs:1139-1207 | a request is ordered if and only if its paths are distinct, admitted, and their references restricted to the request have no cycle; the result respects every reference and is the lexicographically least order that does |
| `InputOrder.OrderErrorsOnManifest` | crates/telchar-nomad-worker/src/lib.rs:1139-1207 | the errors on the data: a path requested twice; else a requested path without an entry; else paths of the request in a circle, the last entry of each referring to the next; each if and only if |
| `InputOrder.OrderOnManifest` | crates/telchar-nomad-worker/src/lib.rs:1139-1207 | the order on the data: every requested path once, behind every other requested path its last entry refers to, and below every other such list by the first byte in which they part |
| `InputOrder.CanonicalUnique` | crates/telchar-nomad-worker/src/lib.rs:1139-1207 | there is only one canonical order of a graph |
| `Bytes.LessIff` | crates/telchar-nomad-worker/src/lib.rs:1184-1186 | the order of the ready set: one path is below another if and only if it ends, or has the smaller byte, where they part |
| `InputOrder.OrderDependsOnSet` | crates/telchar-nomad-worker/src/lib.rs:1139-1207 | the outcome depends on the set of requested paths only, not on their order |
| `InputOrder.ImportAcceptsIffCanonical` | crates/telchar-nomad-worker/src/lib.rs:316-328 | the import accepts a list if and only if it is the canonical order of admitted paths |
| `InputOrder.ImportAcceptsResolved` | crates/telchar-nomad-worker/src/lib.rs:1133-1137 | the import never rejects the list that resolving a request produced |
| `ReferenceGraph.PlanCompleteIffAcyclic` | crates/telchar-nomad-worker/src/lib.rs:1184-1206 | taking the least ready path until none is ready covers every node if and only if the graph has no cycle, and then is a dependency-respecting order |
| `ReferenceGraph.PlanIsLeast` | crates/telchar-nomad-worker/src/lib.rs:1184-1206 | no dependency-respecting order is lexicographically below the plan |
| `ReferenceGraph.BlockedIsCyclic` | crates/telchar-nomad-worker/src/lib.rs:1203-1206 | a non-empty set whose members all wait for members contains a cycle |
| `ReferenceGraph.OrderExcludesCycle` | crates/telchar-nomad-worker/src/lib.rs:1203-1206 | a graph that has a dependency-respecting order has no cycle |
| `OutputOrder.OrderOutputs` | crates/telchar-nomad-worker/src/lib.rs:416-438 | the rescans of the pending list compute `Rescan`: the first free output each time, a cycle error when none is free |
| `OutputOrder.OrderRemoteOutputs` | crates/telchar/src/backend/static_ssh.rs:529-557 | the same for the static SSH form, whose expected paths are those of the outputs |
| `OutputOrder.RescanSound` | crates/telchar-nomad-worker/src/lib.rs:416-438 | a result is a permutation of the outputs with every expected reference, self-references aside, strictly earlier |
| `OutputOrder.RescanStable` | crates/telchar-nomad-worker/src/lib.rs:416-438 | outputs already in order are left as they are |
| `OutputOrder.RescanIsLeast` | crates/telchar-nomad-worker/src/lib.rs:416-438 | for any outputs and expected paths, ordering fails if and only if no permutation of the outputs puts references first, and otherwise gives the least of all that do by the positions in which the outputs were listed |
| `OutputOrder.OrderedIffAcyclic` | crates/telchar-nomad-worker/src/lib.rs:416-438 | where a path determines its references, ordering succeeds if and only if every expected reference is among the outputs and the references have no cycle |
| `OutputOrder.RemoteOrderedIffAcyclic` | crates/telchar/src/backend/static_ssh.rs:529-557 | where a path determines its references, the static SSH cycle error is reported if and only if the references have a cycle |
| `OutputOrder.ReturnOutputs` | crates/telchar-nomad-worker/src/lib.rs:224-246 | the worker gives up for want of information if and only if the store lacks a declared path; otherwise it reports a cycle if and only if declared paths refer to each other in a circle by the store's references, and else returns each declared name and path once, with the store's references, behind the declared paths it refers to, in the least such order by position |
| `NarWriter.OutputNarWriter.SendChunk` | crates/telchar-nomad-worker/src/lib.rs:466-500 | a chunk carries the offset, the buffered bytes and the final flag, and the offset moves on by its length |
| `NarWriter.OutputNarWriter.Write` | crates/telchar-nomad-worker/src/lib.rs:510-526 | any bytes within capacity are taken in full, chunks sent so far are full and not final, and the last chunk is held back |
| `NarWriter.OutputNarWriter.Finish` | crates/telchar-nomad-worker/src/lib.rs:502-508 | it succeeds if and only if exactly the positive announced size was written, and then the chunks deliver it: contiguous offsets, every chunk but the last full and not final, one non-empty final chunk |
| `NarWriter.WriteEndsIffItFits` | crates/telchar-nomad-worker/src/lib.rs:511-525 | the write loop ends if and only if the input fits into the whole chunks that cover the announced size; otherwise no number of turns ends it |
| `NarWriter.CapacityIsWholeChunks` | crates/telchar-nomad-worker/src/lib.rs:511-525 | that capacity is a whole number of chunks, and the least positive one that covers the announced size |
| `NarWriter.ExportOutput` | crates/nix-worker-protocol/src/client.rs:548-563 | under any sizes of stream reads an export succeeds if and only if the size is positive and the stream holds it; chunk `i` then starts at `i` chunk lengths, carries the stream's bytes from there, is full and not final unless it is the last, and the last is final, non-empty and ends at the size |
| `Budget.SessionBudget.Charge` | crates/nix-worker-protocol/src/protocol.rs:87-109 | a charge is taken if and only if it fits, and then adds exactly its bytes |
| `Budget.SessionBudget.Release` | crates/nix-worker-protocol/src/protocol.rs:122-126 | a drop gives back exactly its bytes |
| `Budget.RunConserves` | crates/nix-worker-protocol/src/protocol.rs:87-126 | in every interleaving of compare-exchange loops with spurious failures and of drops, the counter is the sum of the live charges, stays within the maximum, and no drop wraps |
| `Budget.RunBalances` | crates/nix-worker-protocol/src/protocol.rs:87-126 | in every such interleaving the counter is what the calls have charged less what the drops have given back |
| `Budget.RefusedDidNotFit` | crates/nix-worker-protocol/src/protocol.rs:87-109 | a refused charge did not fit into the counter at some instant of its call |
| `Wire.IntRoundTrip` | crates/nix-worker-protocol/src/lib.rs:967-971 | an integer is read back from its eight little-endian bytes, whatever follows |
| `Wire.IntCanonical` | crates/nix-worker-protocol/src/lib.rs:967-971 | eight bytes are the encoding of the integer they decode to |
| `Wire.IntBytes` | crates/nix-worker-protocol/src/lib.rs:967-971 | byte `i` of an integer is the integer over 256 to the `i`, modulo 256 |
| `Wire.PaddingFormula` | crates/nix-worker-protocol/src/lib.rs:1095-1098 | the padding is the remainder made up to eight, and the padded length a multiple of eight |
| `Wire.PaddedIs` | crates/nix-worker-protocol/src/lib.rs:1095-1098 | the padded length is the length rounded up to whole groups of eight |
| `Wire.StringBytes` | crates/nix-worker-protocol/src/lib.rs:1082-1115 | a string on the wire is its length, itself and zeros up to a multiple of eight |
| `Wire.StringRoundTrip` | crates/nix-worker-protocol/src/lib.rs:1082-1115 | a string within the limit is read back from its padded form, whatever follows |
| `Wire.StringCanonical` | crates/nix-worker-protocol/src/lib.rs:1082-1115 | an accepted string is exactly its padded encoding: no other padding is taken |
| `Wire.ListRoundTrip` | crates/nix-worker-protocol/src/client.rs:787-793 | a counted list is read back item by item, for every inverse item grammar |
| `Wire.ListCanonical` | crates/nix-worker-protocol/src/lib.rs:317-362 | an accepted list is the encoding of valid items |
| `Wire.WriteList` | crates/nix-worker-protocol/src/client.rs:787-793 | the writing loop appends the count and every item in order |
| `Streams.UnframeInvertsFrames` | crates/nix-worker-protocol/src/lib.rs:684-712 | frames of any non-empty payloads read as their concatenation and stop right after the zero frame |
| `Streams.EndedIsFramed` | crates/nix-worker-protocol/src/lib.rs:684-712 | a framed stream with an end is the framing of some non-empty payloads |
| `Streams.WriteNarFrames` | crates/nix-worker-protocol/src/client.rs:594-605 | whatever the source's reads return, the upload is frames of 1 to 8192 bytes that concatenate to the source, then the zero frame |
| `Streams.UploadNar` | crates/nix-worker-protocol/src/client.rs:594-605 | a framed reader over an upload yields the source and leaves what follows |
| `Streams.Reader.Read` | crates/nix-worker-protocol/src/lib.rs:684-712 | a read takes bytes off the front, none only at a proper end, which it then reports forever, with the input right after the zero frame; it fails only where the stream is cut off |
| `Streams.Reader.ReadExact` | crates/nix-worker-protocol/src/lib.rs:684-712 | reading `n` bytes yields exactly the next `n` logical bytes or fails, across any frame boundaries |
| `Streams.Reader.ReadCharged` | crates/nix-worker-protocol/src/lib.rs:1082-1115 | the string reader accepts what the grammar and the budget allow, keeps its padded length on success and nothing on failure |
| `Streams.Reader.DiscardBody` | crates/nix-worker-protocol/src/lib.rs:643-658 | discarding in buffers of 4096 bytes accepts exactly the bodies the whole-buffer reader accepts and leaves the same rest, for every length |
| `Streams.Reader.DiscardString` | crates/nix-worker-protocol/src/lib.rs:628-659 | the same with the length in front |
| `Metered.ReadStrings` | crates/nix-worker-protocol/src/lib.rs:196-217 | a counted list of strings, each checked and charged as it arrives, comes to the list grammar weighed as a whole, and a failure gives everything back |
| `Metered.ReadCount` | crates/nix-worker-protocol/src/lib.rs:915-946 | a count within its limit is charged its items' size at once |
| `Checked.ChecksList` | crates/nix-worker-protocol/src/lib.rs:196-217 | checking each item against those before it as it arrives accepts what checking the parsed list accepts |
| `Stderr.WriteFrame` | crates/nix-worker-protocol/src/stderr.rs:68-115 | a frame, Last included, is refused if and only if it exceeds the limits, else its encoding is appended |
| `Stderr.WritableIff` | crates/nix-worker-protocol/src/stderr.rs:134-157 | the writer's limits: 16384 bytes of a message, 64 fields, 4096 bytes of a field |
| `Stderr.WriteError` | crates/nix-worker-protocol/src/stderr.rs:12-26 | an error is refused if and only if its message exceeds 16384 bytes, else the literal bytes of its frame are appended |
| `Stderr.WriteFields` | crates/nix-worker-protocol/src/stderr.rs:117-132 | the fields are written as a count and each tagged value in order |
| `Stderr.ReadCountedFields` | crates/nix-worker-protocol/src/client.rs:1194-1220 | the field loop accepts what the grammar accepts and captures the first field if it is a string |
| `Stderr.ReadErrorMessage` | crates/nix-worker-protocol/src/client.rs:1222-1240 | an error's message is read in both its forms, traces included |
| `Stderr.ReadReply` | crates/nix-worker-protocol/src/client.rs:795-853 | the frame loop ends as the grammar of the whole reply says, right behind Last or the error, and forwards exactly the log lines of the frames it has passed, in order, also before an error or a malformed frame; what the lines are is `Stderr.RelayFrame` |
| `Stderr.Relay` | crates/nix-worker-protocol/src/stderr.rs:68-115 | frames within the limits, written one after the other and followed by Last, reach the client as exactly their log lines, in order, and what follows them is left |
| `Stderr.RelayFrame` | crates/nix-worker-protocol/src/client.rs:800-833 | one frame from the server's writer to the client's log: a message is forwarded as it is, a result of type 101 whose first field is a string as that string and a newline, and nothing else is |
| `Stderr.LogsConcat` | crates/nix-worker-protocol/src/client.rs:795-853 | the log of frames one after the other is the log of the first, then that of the rest |
| `Stderr.FramesOnWire` | crates/nix-worker-protocol/src/stderr.rs:68-115 | the bytes of each frame, tags and fields in order |
| `Stderr.FieldOnWire` | crates/nix-worker-protocol/src/stderr.rs:117-132 | the bytes of each field |
| `Stderr.ReadableIff` | crates/nix-worker-protocol/src/client.rs:1194-1220 | the client's limits: 16384 bytes of a message and, where build-log lines are looked for, of the first field of a result of type 101; 4096 of any other field; 64 fields |
| `Stderr.ErrorMessageRead` | crates/nix-worker-protocol/src/client.rs:1222-1240 | a reply that is an error since protocol 1.26 within the limits, whatever its kind, level, name, position and traces, is refused with its message and leaves what follows |
| `Stderr.ErrorReadIff` | crates/nix-worker-protocol/src/client.rs:1222-1240 | whatever is on the stream, an error since protocol 1.26 is read with a message if and only if the bytes are a kind and a name of at most 256 bytes, a level, that message, a position and at most 64 traces, message and traces of at most 16384 bytes |
| `Stderr.OldErrorReadIff` | crates/nix-worker-protocol/src/client.rs:834-842 | whatever is on the stream, an older error is read with a message if and only if the bytes are that message, at most 16384 of them, and a status |
| `Stderr.ReplyRoundTrip` | crates/nix-worker-protocol/src/client.rs:795-853 | every finite sequence of readable frames followed by Last is read back, consuming exactly the written bytes |
| `Stderr.ErrorReplyRoundTrip` | crates/nix-worker-protocol/src/stderr.rs:12-26 | frames followed by a written error are reported as its message, consuming exactly the written bytes |
| `Stderr.ReplyCanonical` | crates/nix-worker-protocol/src/client.rs:795-853 | a reply is accepted only if it is the encoding of readable frames and Last |
| `Stderr.NoPrefixFinishes` | crates/nix-worker-protocol/src/client.rs:795-853 | no strict prefix of a complete reply is accepted |
| `Stderr.ValidIsReadable` | crates/nix-worker-protocol/src/stderr.rs:134-157 | every frame but Last within the writer's limits is within both readers' limits |
| `Stderr.FrameRoundTrip` | crates/nix-worker-protocol/src/stderr.rs:68-115 | a frame is read back as written, whatever follows |
| `Handshake.HandshakeSucceeds` | crates/nix-worker-protocol/src/client.rs:274-328 | for versions of one major from 1.35 on, a daemon string of at most 1024 bytes and, where both speak 1.38, at most 64 features of at most 1024 bytes: every interleaving of client, server and network is bounded, neither side fails, and it stops if and only if both have finished at the lower version with both pipes empty |
| `Handshake.HandshakeFails` | crates/nix-worker-protocol/src/client.rs:283-287 | and only then: where one of these conditions fails, in no run is the client ever connected |
| `Handshake.HandshakeTranscript` | crates/nix-worker-protocol/src/lib.rs:67-139 | in every such run what each side has said is a prefix of its speech, magic, version, features from 1.38 on, options or daemon string, trust and end, in literal bytes, and all of it once both have finished |
| `HandshakeSides.ClientReachesIff` | crates/nix-worker-protocol/src/client.rs:274-319 | whatever a server says, the client gets to the log frames if and only if the bytes before them are the magic, a version of its major from 1.35 on, from 1.38 on a list of at most 64 features of at most 1024 bytes, a daemon string of at most 1024 and a trust of at most 2; it then speaks the lower version and has read no more |
| `HandshakeSides.ServerReachesIff` | crates/nix-worker-protocol/src/lib.rs:67-129 | whatever a client says, the server gets to its welcome if and only if the bytes before it are the magic, a version whose lower with its own is 1.35 or later, from 1.38 on such a list, an affinity with a CPU where it is not zero, and a reserve; it then speaks that version and has read no more |
| `Handshake.StuckIsFinished` | crates/nix-worker-protocol/src/lib.rs:67-139 | no deadlock: a state without a step is a finished one |
| `Handshake.ClientStepOk` | crates/nix-worker-protocol/src/client.rs:274-328 | each client step consumes what it expects next and leaves what it still expects and owes in balance |
| `Handshake.ServerStepOk` | crates/nix-worker-protocol/src/lib.rs:67-139 | the same for each server step |
| `Handshake.StepDecreases` | crates/nix-worker-protocol/src/client.rs:274-328 | every step brings the handshake nearer to its end |
| `Handshake.VersionRoundTrip` | crates/nix-worker-protocol/src/protocol.rs:143-149 | a version is read back from its wire form |
| `StorePaths.ValidPathBytes` | crates/nix-worker-protocol/src/client.rs:1318-1348 | a valid path is the store directory, a slash and a valid base name, without a zero byte or `!` |
| `StorePaths.ValidPathIff` | crates/nix-worker-protocol/src/client.rs:1318-1348 | a path is valid if and only if it is `/nix/store/`, 32 digits of the store's alphabet, a dash and a name of letters, digits and `+-._?=`, at most 222 bytes in all |
| `StorePaths.ValidHashIff` | crates/nix-worker-protocol/src/lib.rs:885-913 | an output's hash is valid if and only if it and its algorithm are empty, or it is md5, sha1, sha256 or sha512, plain or recursive, with 32, 40, 64 or 128 lower-case digits |
| `StorePaths.ClientDerivedIsServerDerived` | crates/nix-worker-protocol/src/client.rs:1280-1304 | every derived path the client lets through is valid for the server and within its length limit |
| `StorePaths.ServerDerivedIsClientDerivedIff` | crates/nix-worker-protocol/src/lib.rs:845-872 | what the server takes the client would write, if and only if outputs belong to a derivation and stay within the client's limit |
| `StorePaths.ServerDerivedIff` | crates/nix-worker-protocol/src/lib.rs:845-872 | the server takes a target if and only if it is a valid path, alone or with `!` and output names between commas |
| `StorePaths.ClientDerivedIff` | crates/nix-worker-protocol/src/client.rs:1280-1304 | the client takes a target if and only if it is a valid path, alone or, for a derivation, with `!` and output names between commas, at most 222 bytes of them |
| `BuildDerivation.ReadBuild` | crates/nix-worker-protocol/src/lib.rs:390-588 | the decoder accepts exactly the messages that parse, pass the server's checks, fit the budget and, on an input that reports unread data, end there; it leaves the rest, keeps the sizes of all lists and strings on success and nothing on failure |
| `BuildDerivation.ReadOutput` | crates/nix-worker-protocol/src/lib.rs:416-459 | an output is read, checked field by field against those before it and charged, with a failure giving everything back |
| `BuildDerivation.ReadOutputs` | crates/nix-worker-protocol/src/lib.rs:408-459 | the output loop comes to the grammar of the list weighed as a whole |
| `BuildDerivation.ReadEnvironment` | crates/nix-worker-protocol/src/lib.rs:518-551 | the environment loop comes to the grammar of the list weighed as a whole |
| `BuildDerivation.PartsOkMeans` | crates/nix-worker-protocol/src/lib.rs:398-560 | the checks made on the way are the server's checks of the whole request: validity of each part, distinct output names and paths, inputs and keys, and mode zero |
| `BuildDerivation.WriteBuild` | crates/nix-worker-protocol/src/client.rs:486-505 | the client's writes, one after the other, are the encoding of the request |
| `BuildDerivation.BuildRoundTrip` | crates/nix-worker-protocol/src/lib.rs:390-588 | a request within the limits is decoded to itself if and only if it passes the server's checks and fits the budget, whatever follows it, which is left, and is refused otherwise |
| `BuildDerivation.BuildCanonical` | crates/nix-worker-protocol/src/lib.rs:390-588 | what is accepted is the encoding of a request that passes the checks and fits, followed by what is left |
| `BuildDerivation.BuildArrivesIff` | crates/nix-worker-protocol/src/lib.rs:390-588 | a request spelled out in bytes, within the literal limits, is decoded to itself if and only if its parts are well formed and distinct as the server demands and the sizes it keeps, spelled out, fit the budget; it is refused otherwise |
| `BuildDerivation.BuildReadIff` | crates/nix-worker-protocol/src/lib.rs:390-588 | whatever is on the stream, a request is decoded if and only if the bytes before the rest are its bytes and it meets the same literal limits, checks and budget |
| `BuildDerivation.ServerAcceptsIff` | crates/nix-worker-protocol/src/lib.rs:398-560 | the server's checks on the request's own parts |
| `BuildDerivation.ClientValidIff` | crates/nix-worker-protocol/src/client.rs:731-785 | the client's checks on the request's own parts, with the literal limits |
| `BuildDerivation.ClientServerDifference` | crates/nix-worker-protocol/src/client.rs:731-785 | for a request that passes the client's checks, the server's checks hold if and only if it has no zero bytes in text, no `=` in keys, and distinct output paths and inputs |
| `BuildDerivation.ClientBuildArrivesIff` | crates/nix-worker-protocol/src/client.rs:486-505 | a request that passes the client's checks arrives as written, whatever follows it, if and only if it is clean in that sense and fits the budget |
| `BuildDerivation.NulPlatformIsRefused` | crates/nix-worker-protocol/src/client.rs:744-752 | the client writes requests the server refuses: any valid request with a zero byte for its platform |
| `BuildDerivation.SmallBuildArrivesIff` | crates/nix-worker-protocol/src/client.rs:744-752 | a concrete request of one output passes the client's checks with any platform in its limit, and arrives if and only if the platform has no zero byte |
| `AddMultiple.ReadFromPath` | crates/nix-worker-protocol/src/lib.rs:754-839 | an object's metadata is read, checked and charged part by part as its grammar weighed as a whole |
| `AddMultiple.ReadObject` | crates/nix-worker-protocol/src/lib.rs:279-289 | an object's metadata must fit by itself, its NAR is exactly the announced size, the receiver takes it knowing the objects before, and its charges are gone before the next object |
| `AddMultiple.ReadFramedObjects` | crates/nix-worker-protocol/src/lib.rs:276-297 | the framed part is decoded as a function of its logical bytes; success leaves the input right after the zero frame and the budget as it was |
| `AddMultiple.ReadAddMultiple` | crates/nix-worker-protocol/src/lib.rs:253-303 | the whole request: two strict booleans, repair refused, then the framed objects; what these are in bytes is `AddMultiple.FlagsOnWire` and `AddMultiple.ObjectArrivesIff` |
| `AddMultiple.FlagsOnWire` | crates/nix-worker-protocol/src/lib.rs:258-270 | the flags are taken if and only if repair is 0 and the other 0 or 1, and the other is what was sent |
| `AddMultiple.ObjectArrivesIff` | crates/nix-worker-protocol/src/lib.rs:276-297 | one object spelled out in bytes, path, deriver, hash, references, time, NAR size, ultimate, signatures, content address and NAR, is decoded with that NAR for its body, whatever its time, if and only if its fields are well formed, the sizes it keeps fit the budget and the receiver takes it; it is refused otherwise |
| `AddMultiple.ObjectsReadIff` | crates/nix-worker-protocol/src/lib.rs:276-303 | whatever the frames carry, objects are decoded if and only if the stream ends and is their count and their bytes in order, at most 65536 of them, and each announces the size of its NAR, keeps the literal limits, is well formed, fits the budget by itself and is taken by the receiver after those before it |
| `AddMultiple.FramingIrrelevant` | crates/nix-worker-protocol/src/lib.rs:276-297 | how the logical bytes are cut into non-empty frames makes no difference to what the decoder is given or what is left over |
| `AddMultiple.AcceptedIsFramed` | crates/nix-worker-protocol/src/lib.rs:684-712 | an accepted stream is the framing of its logical bytes |
| `AddMultiple.AddMultipleRoundTrip` | crates/nix-worker-protocol/src/lib.rs:253-303 | objects written in order and cut into any frames are decoded to themselves if and only if each is valid, fits the budget by itself and is taken by the receiver after those before it |
| `AddMultiple.AddMultipleCanonical` | crates/nix-worker-protocol/src/lib.rs:253-303 | what is decoded was written so: the logical bytes are exactly the encoding of in-limit objects that are valid, fit the budget by themselves and are taken by the receiver in turn |
| `Queries.ReadValidPaths` | crates/nix-worker-protocol/src/lib.rs:160-239 | accepts exactly in-limit lists of distinct valid paths that fit, then a strict boolean; keeps the list's size on success and nothing on failure |
| `Queries.ValidPathsArriveIff` | crates/nix-worker-protocol/src/lib.rs:160-239 | paths spelled out in bytes and, from protocol 1.27 on, a flag are taken if and only if the paths are well formed and differ, their sizes fit the budget and the flag is 0 or 1; a 1 asks for substitutes |
| `Queries.ValidPathsReadIff` | crates/nix-worker-protocol/src/lib.rs:160-239 | whatever is on the stream, a request is read if and only if it is such bytes |
| `Queries.ReadMissingRequest` | crates/nix-worker-protocol/src/lib.rs:305-362 | accepts exactly in-limit lists of distinct derived paths that fit and, on an input that reports unread data, end the message; leaves the rest, with the same balance |
| `Queries.TargetsArriveIff` | crates/nix-worker-protocol/src/lib.rs:305-362 | targets spelled out in bytes are taken if and only if they are well formed and differ and their sizes fit the budget |
| `Queries.TargetsReadIff` | crates/nix-worker-protocol/src/lib.rs:305-362 | whatever is on the stream, targets are read if and only if they are such bytes |
| `Queries.MissingRequestArrivesIff` | crates/nix-worker-protocol/src/client.rs:401-411 | targets that pass the client's checks arrive, whatever follows them, if and only if no two are equal and they fit the budget |
| `Queries.RepeatedTargetIsRefused` | crates/nix-worker-protocol/src/client.rs:401-411 | any target that passes the client's checks is refused when it is given twice |
| `Queries.RepeatedPathIsRefused` | crates/nix-worker-protocol/src/client.rs:401-411 | a concrete such target |
| `Queries.SetNeverRefused` | crates/nix-worker-protocol/src/client.rs:1116-1151 | a budget with room for the largest set refuses no set |
| `Queries.ReadSet` | crates/nix-worker-protocol/src/client.rs:1116-1151 | a set of distinct strings is read as its grammar says and its charges are released |
| `Queries.SortDedup` | crates/nix-worker-protocol/src/lib.rs:1324-1325 | the written set is strictly ascending and has exactly the given elements |
| `Queries.AscendingUnique` | crates/nix-worker-protocol/src/lib.rs:1324-1325 | there is only one such list |
| `Queries.ReadMissing` | crates/nix-worker-protocol/src/client.rs:412-435 | the client's reader is the response's grammar: its 16 MiB budget never refuses, since each set's charges are released before the next |
| `Queries.WriteMissing` | crates/nix-worker-protocol/src/lib.rs:1290-1331 | a response is written if and only if every set is in its limit and valid, and a client reads back exactly the sorted, deduplicated sets and the sizes |
| `Queries.MissingRoundTrip` | crates/nix-worker-protocol/src/lib.rs:1290-1331 | a written response is read back, whatever follows |
| `Queries.MissingArrivesIff` | crates/nix-worker-protocol/src/client.rs:412-435 | a response spelled out in bytes, paths to build, to substitute and unknown, download and NAR size, is taken if and only if each set's paths are well formed and differ |
| `Queries.MissingReadIff` | crates/nix-worker-protocol/src/client.rs:412-435 | whatever is on the stream, a response is read if and only if it is such bytes |
| `Queries.WritePathInfo` | crates/nix-worker-protocol/src/lib.rs:1248-1288 | a path's info is written if and only if its hash is 64 hexadecimal digits of either case and its references are well formed, and then as the bytes of its fields in order |
| `Queries.ReadPathInfo` | crates/nix-worker-protocol/src/client.rs:1060-1114 | the client's reader is the response's grammar: its budget never refuses |
| `Queries.PathInfoReadBackIff` | crates/nix-worker-protocol/src/client.rs:1060-1114 | a written path info is read back as it is if and only if the deriver, if any, is valid, the hash lower case, references valid, signatures in limits, both distinct, and the content address, if any, non-empty and in its limit |
| `Queries.InfoArrivesIff` | crates/nix-worker-protocol/src/client.rs:1060-1114 | the same with the response spelled out in bytes and the conditions in literal alphabets and limits |
| `Queries.InfoReadIff` | crates/nix-worker-protocol/src/client.rs:1060-1114 | whatever is on the stream, an info is read if and only if it is its bytes and meets those conditions |
| `Queries.CapitalHashIsNotReadBack` | crates/nix-worker-protocol/src/lib.rs:1258-1269 | a concrete path info with a hash in capital letters that the server writes and the client does not read back |
| `BackendPool.Select` | crates/telchar/src/backend/mod.rs:608-622 | the fold picks the first target of highest priority among the eligible ones, and none only if none is eligible |
| `BackendPool.Configure` | crates/telchar/src/backend/mod.rs:252-291 | a pool is made if and only if there are targets, as many positive maximums and distinct names; its ledger has every target idle at its maximum |
| `BackendPool.RetainCapacity` | crates/telchar/src/backend/mod.rs:293-321 | a reload is accepted if and only if shared names keep their maximum; then the ledger gains the missing entries and keeps all others, and a rejected reload changes nothing |
| `BackendPool.Pool.TryAcquire` | crates/telchar/src/backend/mod.rs:350-459 | one turn under the lock: incompatible if and only if every target has another system, lacks a required feature or has a mandatory one that is not required; else not ready if and only if no other is available; else busy if and only if none of those has a free permit; else the first such of highest priority gets one more permit and nothing else changes |
| `BackendPool.Pool.TryAcquireIndex` | crates/telchar/src/backend/mod.rs:502-541 | one turn under the lock: the named target gets a permit if and only if it has one free |
| `BackendPool.Pool.Release` | crates/telchar/src/backend/mod.rs:591-606 | a dropped permit lowers exactly its target's count |
| `BackendPool.Reload` | crates/telchar/src/backend/mod.rs:293-321 | the new generation has the candidate's targets over the current ledger |
| `BackendPool.RunConserves` | crates/telchar/src/backend/mod.rs:252-606 | in every run of creations, acquires, drops and reloads with a fresh candidate, every count is the live permits of all generations sharing the ledger and within the maximum, every lookup hits, and no count underflows |
| `BackendPool.RunCounts` | crates/telchar/src/backend/mod.rs:252-606 | in every such run each entry's count is the number of live permits that name it in that ledger, whichever generation gave them, and within its maximum; every target of every pool has an entry |
| `BackendPool.CountBalances` | crates/telchar/src/backend/mod.rs:252-606 | in every run a count is the acquires of that name less the drops of permits for it, across all reloads |
| `BackendPool.ReloadLasts` | crates/telchar/src/backend/mod.rs:293-321 | the generation an accepted reload brings is over the ledger it replaces and keeps an entry for each of its targets in every later state |
| `BackendPool.EntrySurvives` | crates/telchar/src/backend/mod.rs:293-321 | an entry once in a ledger keeps its maximum, and through any removals and re-additions its count is the permits still held |
| `BackendPool.ReplaceKeepsIff` | crates/telchar/src/backend/mod.rs:311-313 | a reload keeps the counts true if and only if it is rejected or the entries it brings in are idle |
| `BackendPool.BusyCandidateBreaksCount` | crates/telchar/src/backend/mod.rs:311-313 | a run of two creations and an acquire after which a reload with the second pool breaks the count |
| `Rendezvous.ExecutionSessions.Register` | crates/telchar/src/microvm/rendezvous.rs:203-231 | a registration is made if and only if its intent is 1 to 128 bytes and not waiting, its deadline ahead, and there is room |
| `Rendezvous.ExecutionSessions.TakeSender` | crates/telchar/src/microvm/rendezvous.rs:250-262 | a sender is taken if and only if the intent waits, its deadline is ahead and it was not taken before; it cannot be taken again |
| `Rendezvous.WaitingIsGuards` | crates/telchar/src/microvm/rendezvous.rs:203-324 | in every interleaving the waiting keys are exactly the intents of the live guards, one guard each, at most the maximum |
| `Rendezvous.DeliveredAtMostOnce` | crates/telchar/src/microvm/rendezvous.rs:233-263 | in every interleaving a registration is sent at most one connection, of its own intent and before its deadline, what was sent is what was received and what the channel still holds, the send cannot fail, and the socket carries this registration's deadline unless the look-up saw an earlier one that is gone |
| `Rendezvous.ReceivedEachTime` | crates/telchar/src/microvm/rendezvous.rs:286-312 | in every interleaving an execution gets a connection each time it receives |
| `Rendezvous.EveryRunDrains` | crates/telchar/src/microvm/rendezvous.rs:318-324 | from every state of every interleaving, drops and failed admissions alone lead to one where nobody waits and no session or bound connection is left |
| `Rendezvous.SocketDeadlineCanBePast` | crates/telchar/src/microvm/rendezvous.rs:240-262 | a run in which the delivered socket's deadline has already passed, because its look-up saw an earlier registration of the intent |
| `Rendezvous.DeliversInTimeIff` | crates/telchar/src/microvm/rendezvous.rs:249-261 | a connection about to be delivered is in time whenever the lock is got if and only if the entry's deadline is not behind the one its socket carries |
| `Rendezvous.SoleRegistrationInTime` | crates/telchar/src/microvm/rendezvous.rs:233-263 | in every interleaving a registration that is the only one of its intent is sent a connection whose socket carries its own deadline, before that deadline |
| `Admission.PendingConnections.Reserve` | crates/telchar/src/microvm/rendezvous.rs:43-53 | a permit is given if and only if the total is below the maximum |
| `Admission.PendingConnections.Authenticate` | crates/telchar/src/microvm/rendezvous.rs:57-69 | a backend is counted if and only if the permit has none, its name is 1 to 256 bytes and its count below the maximum; otherwise nothing changes, not even an entry |
| `Admission.PendingConnections.Drop` | crates/telchar/src/microvm/rendezvous.rs:72-86 | a dropped permit lowers the total and its backend's count, whose entry goes when it reaches zero |
| `Admission.Reap` | crates/telchar/src/microvm/callback_service.rs:57-66 | the pass over the workers joins each finished one once, keeps the others, and misses none that had finished before it |
| `Admission.PendingConserved` | crates/telchar/src/microvm/rendezvous.rs:32-86 | in every interleaving the workers the listener has yet to join are at most the maximum, the total is the live permits, every stored backend count is its live authenticated permits and between 1 and the maximum, no drop underflows, and no worker's reservation is ever refused; workers that have dropped their permit and still deliver are among those interleaved |
| `Admission.EveryRunDrains` | crates/telchar/src/microvm/callback_service.rs:57-112 | from every state of every run the workers' own steps and the listener's joins lead, without a new connection, to one with no permit, no entry and no worker left, each worker finished and none refused |
| `Admission.HeldUntilReleased` | crates/telchar/src/microvm/rendezvous.rs:57-86 | in every interleaving a worker that has authenticated holds its permit for that backend, which is counted, until it releases it |
| `Admission.OneWorkerEach` | crates/telchar/src/microvm/callback_service.rs:79-112 | in every interleaving there is one worker for each connection the listener took |
| `Admission.ReserveFindsRoom` | crates/telchar/src/microvm/callback_service.rs:79-112 | a worker that has yet to reserve finds room, because every holder is another worker the listener still counts |
| `SessionHeader.RegisterRecognises` | crates/telchar/src/microvm/rendezvous.rs:142-148 | the shift register reads CR LF CR LF if and only if the bytes so far end so |
| `SessionHeader.SessionStream.Read` | crates/telchar/src/microvm/rendezvous.rs:129-153 | reads in the header phase deliver at most 1024 bytes at a time and 8192 in all, and flag completion if and only if the blank line has occurred |
| `SessionHeader.HeaderPhase` | crates/telchar/src/microvm/rendezvous.rs:129-153 | the same over any split of reads |
| `Pricing.DecimalPicodollars` | crates/telchar/src/microvm/pricing.rs:115-142 | a text is accepted if and only if it is digits, or digits, a dot and digits, at most 64 bytes in all, whose value times 10^12, rounded up, lies in 1..2^63-1, and that is the result |
| `Pricing.PricedIff` | crates/telchar/src/microvm/pricing.rs:119-125 | what the text says and what its split at the first dot says are the same |
| `Pricing.PricesOfTexts` | crates/telchar/src/microvm/pricing.rs:115-142 | "1.5" is 1500000000000 picodollars and "3" is 3000000000000 |
| `Pricing.PicodollarsIsCeiling` | crates/telchar/src/microvm/pricing.rs:126-141 | twelve places and the rounding flag add up to the ceiling of the exact value |
| `Pricing.CeilingUnique` | crates/telchar/src/microvm/pricing.rs:126-141 | there is only one such ceiling |
| `Pricing.Quote` | crates/telchar/src/microvm/pricing.rs:21-66 | a quote is given if and only if the size is 512 MiB by 1, 2, 4, 8 or 16, both prices are accepted texts and the rate fits: that many CPUs at the one price and twice as many GB at the other; it is never below the exact peak price and exceeds it by less than one picodollar per unit |

## Left out

- BuildPathsWithResults, SetOptions and store-path requests, and the QueryValidPaths response: they would repeat the list and string decoders.
- Build results and their JSON outputs, and the AddToStoreNar request around its framed NAR.
- The UTF-8 check of handshake features, which always passes on the strings a server sends, and their negotiated intersection, which is empty for this client.
- HandshakeSides.ClientReachesIff: without that check, so that a list of features that is not UTF-8 is taken here and refused by the client.
- HandshakeSides.ServerReachesIff: likewise without that check.
- Frames other than Last that could precede the end of a handshake: the server sends none there, and the client's frame loop is modelled in `Stderr`.
- `select_missing_inputs`, a filter of paths without state.
- Transfer sessions and the protocol session behind the worker's input reader: their source is not part of this model.
- Persistence, singleton ownership and the MicroVM launch lifecycle.
- HTTP, TLS, WebSocket, AWS, Nomad, SSH and subprocess handling, telemetry and metrics.
- Authentication, signatures and hashes.
- The lookup of a price in the catalog's JSON; the prices are parameters.
- Condition-variable fairness and poisoned mutexes: a wait is a turn that finds nothing free, and a lock is always obtained.
- The text of error messages: a decoder fails or it does not.
- Stderr.ReadReply: does not say what the input is after a malformed reply, because the client drops the connection then; the sink of log lines never fails.
- BuildDerivation.ReadBuild: whether the input reports unread data is a parameter, because only a byte slice does; a session's input keeps the default and never does (crates/nix-worker-protocol/src/lib.rs:23-35, crates/telchar/src/service/session/input.rs:72-77), so that what follows is left for the next operation.
- Queries.ReadMissingRequest: the same parameter for the same reason.
- BuildDerivation.ClientBuildArrivesIff: presumes a connection the daemon trusts (crates/nix-worker-protocol/src/client.rs:731-742); this server announces trust 0 (crates/nix-worker-protocol/src/lib.rs:132-134), on which that client sends no build.
- AddMultiple.ReadAddMultiple: the receiver of a NAR is a predicate on the whole object and the objects before it, because a receiver that stops early makes the request fail as a refusal does.
- BackendPool.Pool.TryAcquire: one turn of the waiting loop, because what other threads do between turns is the business of the runs in `BackendPool.RunConserves`.
