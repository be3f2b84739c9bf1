/** The worker's output re-chunker (`OutputNarWriter`) and the transfer loop that feeds it
    (`nar_from_path`).  A full buffer is sent only while more of the NAR must follow, so
    the last chunk is always left for `finish`. */
module NarWriter {
  import opened Basics
  import opened Bytes

  datatype Chunk = Chunk(offset: nat, payload: seq<byte>, finalChunk: bool)

  ghost function Payloads(chunks: seq<Chunk>): seq<byte> {
    if chunks == [] then [] else Payloads(chunks[..|chunks| - 1]) + chunks[|chunks| - 1].payload
  }

  lemma PayloadsAppend(chunks: seq<Chunk>, c: Chunk)
    ensures Payloads(chunks + [c]) == Payloads(chunks) + c.payload
  {
    assert (chunks + [c])[..|chunks|] == chunks;
  }

  /** `size` rounded up to whole chunks, and at least one chunk. */
  ghost function Capacity(size: int, chunk: nat): (r: nat)
    requires chunk > 0
    ensures r >= size && r >= chunk && (size > chunk ==> r < size + chunk)
    decreases size
  {
    if size <= chunk then chunk else chunk + Capacity(size - chunk, chunk)
  }

  lemma OneOrMore(k: nat, chunk: nat)
    requires k > 0
    ensures chunk <= k * chunk
  {
    NextMultiple(k - 1, chunk);
    assert (k - 1) * chunk >= 0;
  }

  lemma {:induction false} WholeChunks(size: int, chunk: nat) returns (k: nat)
    requires chunk > 0
    ensures k > 0 && Capacity(size, chunk) == k * chunk
    decreases size
  {
    if size <= chunk {
      k := 1;
    } else {
      var j := WholeChunks(size - chunk, chunk);
      NextMultiple(j, chunk);
      k := j + 1;
    }
  }

  lemma {:induction false} NoFewerChunks(size: int, chunk: nat, k: nat)
    requires chunk > 0 && k > 0 && size <= k * chunk
    ensures Capacity(size, chunk) <= k * chunk
    decreases size
  {
    OneOrMore(k, chunk);
    if size > chunk {
      NextMultiple(k - 1, chunk);
      if k == 1 {
        assert false;
      }
      NoFewerChunks(size - chunk, chunk, k - 1);
    }
  }

  /** The least whole number of chunks, one at least, that covers the size. */
  lemma CapacityIsWholeChunks(size: int, chunk: nat)
    requires chunk > 0
    ensures exists k: nat {:trigger k * chunk} :: k > 0 && Capacity(size, chunk) == k * chunk
    ensures forall k: nat {:trigger k * chunk} :: k > 0 && size <= k * chunk ==> Capacity(size, chunk) <= k * chunk
  {
    var k := WholeChunks(size, chunk);
    forall k: nat | k > 0 && size <= k * chunk ensures Capacity(size, chunk) <= k * chunk {
      NoFewerChunks(size, chunk, k);
    }
  }

  // ----- the state and one turn of the write loop -----

  datatype State = State(offset: nat, buffered: seq<byte>, sent: seq<Chunk>)

  const EMPTY := State(0, [], [])

  ghost function Received(s: State): seq<byte> {
    Payloads(s.sent) + s.buffered
  }

  /** Chunks sent so far: full, not final, contiguous, and each with more to follow. */
  ghost predicate FullChunks(chunks: seq<Chunk>, upTo: nat, size: nat, chunk: nat) {
    && upTo == |Payloads(chunks)|
    && forall i :: 0 <= i < |chunks| ==>
         && chunks[i].offset == |Payloads(chunks[..i])|
         && |chunks[i].payload| == chunk && !chunks[i].finalChunk
         && chunks[i].offset + chunk < size
  }

  ghost predicate Valid(s: State, size: nat, chunk: nat) {
    && chunk > 0
    && FullChunks(s.sent, s.offset, size, chunk)
    && (s.offset == 0 || s.offset < size)
    && |s.buffered| <= chunk
    && (|s.buffered| == chunk ==> s.offset + chunk >= size)
  }

  function Sent(s: State, finalChunk: bool): State {
    State(s.offset + |s.buffered|, [], s.sent + [Chunk(s.offset, s.buffered, finalChunk)])
  }

  /** One turn of the loop in `write`: the new state and the bytes still to take. */
  function Turn(s: State, input: seq<byte>, size: nat, chunk: nat): (State, seq<byte>)
    requires |s.buffered| <= chunk
  {
    var available := chunk - |s.buffered|;
    var copied := if available < |input| then available else |input|;
    var filled := s.(buffered := s.buffered + input[..copied]);
    if |filled.buffered| == chunk && s.offset + chunk < size
    then (Sent(filled, false), input[copied..])
    else (filled, input[copied..])
  }

  /** How many more bytes the writer can take before its last chunk is full. */
  ghost function Room(s: State, size: nat, chunk: nat): int
    requires chunk > 0
  {
    Capacity(size - s.offset, chunk) - |s.buffered|
  }

  lemma FullChunksAppend(chunks: seq<Chunk>, payload: seq<byte>, size: nat, chunk: nat)
    requires FullChunks(chunks, |Payloads(chunks)|, size, chunk)
    requires |payload| == chunk && |Payloads(chunks)| + chunk < size
    ensures var all := chunks + [Chunk(|Payloads(chunks)|, payload, false)];
            FullChunks(all, |Payloads(chunks)| + chunk, size, chunk)
  {
    var all := chunks + [Chunk(|Payloads(chunks)|, payload, false)];
    PayloadsAppend(chunks, all[|chunks|]);
    forall i | 0 <= i < |all|
      ensures all[i].offset == |Payloads(all[..i])| && |all[i].payload| == chunk && !all[i].finalChunk
      ensures all[i].offset + chunk < size
    {
      assert all[..i] == chunks[..i];
      assert chunks[..|chunks|] == chunks;
    }
  }

  lemma SentKeeps(s: State, size: nat, chunk: nat)
    requires chunk > 0 && FullChunks(s.sent, s.offset, size, chunk)
    requires |s.buffered| == chunk && s.offset + chunk < size
    ensures Valid(Sent(s, false), size, chunk)
    ensures Received(Sent(s, false)) == Received(s)
    ensures Room(Sent(s, false), size, chunk) == Room(s, size, chunk)
  {
    FullChunksAppend(s.sent, s.buffered, size, chunk);
    PayloadsAppend(s.sent, Chunk(s.offset, s.buffered, false));
  }

  lemma TurnUsesRoom(s: State, input: seq<byte>, size: nat, chunk: nat)
    requires Valid(s, size, chunk)
    ensures var (s', rest) := Turn(s, input, size, chunk);
            && Room(s', size, chunk) - |rest| == Room(s, size, chunk) - |input|
            && (input != [] && Room(s, size, chunk) > 0 ==> |rest| < |input|)
  {
    var available := chunk - |s.buffered|;
    var copied := if available < |input| then available else |input|;
    var filled := s.(buffered := s.buffered + input[..copied]);
    assert Room(filled, size, chunk) == Room(s, size, chunk) - copied;
    if |filled.buffered| == chunk && s.offset + chunk < size {
      SentKeeps(filled, size, chunk);
    }
  }

  /** A turn keeps the state valid, loses no byte, and uses up room byte for byte. */
  lemma FillReceives(s: State, input: seq<byte>, copied: nat)
    requires copied <= |input|
    ensures Received(s.(buffered := s.buffered + input[..copied])) + input[copied..] == Received(s) + input
  {
    assert input == input[..copied] + input[copied..];
  }

  lemma TurnKeeps(s: State, input: seq<byte>, size: nat, chunk: nat)
    requires Valid(s, size, chunk)
    ensures var (s', rest) := Turn(s, input, size, chunk);
            && Valid(s', size, chunk)
            && Received(s') + rest == Received(s) + input
            && Room(s', size, chunk) - |rest| == Room(s, size, chunk) - |input|
            && (input != [] && Room(s, size, chunk) > 0 ==> |rest| < |input|)
  {
    TurnUsesRoom(s, input, size, chunk);
    var available := chunk - |s.buffered|;
    var copied := if available < |input| then available else |input|;
    var filled := s.(buffered := s.buffered + input[..copied]);
    FillReceives(s, input, copied);
    if |filled.buffered| == chunk && s.offset + chunk < size {
      SentKeeps(filled, size, chunk);
      assert Turn(s, input, size, chunk) == (Sent(filled, false), input[copied..]);
    } else {
      assert Turn(s, input, size, chunk) == (filled, input[copied..]);
    }
  }

  // ----- when the loop ends -----

  ghost function Turns(s: State, input: seq<byte>, size: nat, chunk: nat, n: nat): (State, seq<byte>)
    requires Valid(s, size, chunk)
    decreases n
  {
    if n == 0 then (s, input)
    else
      TurnKeeps(s, input, size, chunk);
      var (s', rest) := Turn(s, input, size, chunk);
      Turns(s', rest, size, chunk, n - 1)
  }

  lemma {:induction false} TurnsKeepExcess(s: State, input: seq<byte>, size: nat, chunk: nat, n: nat)
    requires Valid(s, size, chunk)
    ensures var (s', rest) := Turns(s, input, size, chunk, n);
            |s'.buffered| <= chunk && Room(s', size, chunk) - |rest| == Room(s, size, chunk) - |input|
            && Room(s', size, chunk) >= 0
    decreases n
  {
    TurnKeeps(s, input, size, chunk);
    if n > 0 {
      var (s', rest) := Turn(s, input, size, chunk);
      TurnsKeepExcess(s', rest, size, chunk, n - 1);
    }
  }

  ghost predicate Ends(s: State, input: seq<byte>, size: nat, chunk: nat)
    requires Valid(s, size, chunk)
  {
    exists n: nat :: Turns(s, input, size, chunk, n).1 == []
  }

  lemma {:induction false} RoomEnds(s: State, input: seq<byte>, size: nat, chunk: nat)
    requires Valid(s, size, chunk) && |input| <= Room(s, size, chunk)
    ensures Ends(s, input, size, chunk)
    decreases |input|
  {
    if input == [] {
      assert Turns(s, input, size, chunk, 0).1 == [];
    } else {
      TurnKeeps(s, input, size, chunk);
      var (s', rest) := Turn(s, input, size, chunk);
      RoomEnds(s', rest, size, chunk);
      var n: nat :| Turns(s', rest, size, chunk, n).1 == [];
      assert Turns(s, input, size, chunk, n + 1).1 == [];
    }
  }

  /** The write loop ends exactly when the input fits the room that is left; given one byte
      more it spins on a full buffer it may neither send nor extend. */
  lemma WriteEndsIffItFits(s: State, input: seq<byte>, size: nat, chunk: nat)
    requires Valid(s, size, chunk)
    ensures Ends(s, input, size, chunk) <==> |input| <= Room(s, size, chunk)
  {
    if |input| <= Room(s, size, chunk) {
      RoomEnds(s, input, size, chunk);
    } else if Ends(s, input, size, chunk) {
      var n: nat :| Turns(s, input, size, chunk, n).1 == [];
      TurnsKeepExcess(s, input, size, chunk, n);
      assert false;
    }
  }

  // ----- the writer -----

  /** A complete transfer: the chunks concatenate to the data with contiguous offsets, all
      but the last are full and not final, and the last is non-empty and final. */
  ghost predicate Delivers(chunks: seq<Chunk>, data: seq<byte>, chunk: nat) {
    && Payloads(chunks) == data
    && |chunks| > 0
    && (forall i :: 0 <= i < |chunks| ==>
          && chunks[i].offset == |Payloads(chunks[..i])|
          && (chunks[i].finalChunk <==> i == |chunks| - 1)
          && (i < |chunks| - 1 ==> |chunks[i].payload| == chunk))
    && 0 < |chunks[|chunks| - 1].payload| <= chunk
  }

  lemma LastDelivers(s: State, size: nat, chunk: nat)
    requires Valid(s, size, chunk) && s.buffered != []
    ensures Delivers(Sent(s, true).sent, Received(s), chunk)
  {
    var chunks := Sent(s, true).sent;
    PayloadsAppend(s.sent, Chunk(s.offset, s.buffered, true));
    forall i | 0 <= i < |chunks|
      ensures chunks[i].offset == |Payloads(chunks[..i])| && (chunks[i].finalChunk <==> i == |chunks| - 1)
      ensures i < |chunks| - 1 ==> |chunks[i].payload| == chunk
    {
      assert chunks[..i] == s.sent[..i];
      assert s.sent[..|s.sent|] == s.sent;
    }
  }

  /** Chunk `i` is the data from `i * chunk` on, up to a full chunk; the last one is final and
      ends where the data ends. */
  ghost predicate CutAt(chunks: seq<Chunk>, data: seq<byte>, chunk: nat, i: nat) {
    && i < |chunks|
    && chunks[i].offset == i * chunk && chunks[i].offset + |chunks[i].payload| <= |data|
    && chunks[i].payload == data[chunks[i].offset..chunks[i].offset + |chunks[i].payload|]
    && (i + 1 < |chunks| ==> |chunks[i].payload| == chunk && !chunks[i].finalChunk)
    && (i + 1 == |chunks| ==>
          && 0 < |chunks[i].payload| <= chunk && chunks[i].finalChunk && chunks[i].offset + |chunks[i].payload| == |data|)
  }

  ghost predicate Cut(chunks: seq<Chunk>, data: seq<byte>, chunk: nat) {
    |chunks| > 0 && forall i: nat :: i < |chunks| ==> CutAt(chunks, data, chunk, i)
  }

  lemma {:induction false} PayloadsPrefix(chunks: seq<Chunk>, i: nat)
    requires i <= |chunks|
    ensures Payloads(chunks[..i]) <= Payloads(chunks)
    decreases |chunks| - i
  {
    if i < |chunks| {
      PayloadsPrefix(chunks, i + 1);
      assert chunks[..i + 1][..i] == chunks[..i];
    } else {
      assert chunks[..i] == chunks;
    }
  }

  lemma {:induction false} FullPrefix(chunks: seq<Chunk>, data: seq<byte>, chunk: nat, i: nat)
    requires Delivers(chunks, data, chunk) && i < |chunks|
    ensures |Payloads(chunks[..i])| == i * chunk
    decreases i
  {
    if i > 0 {
      FullPrefix(chunks, data, chunk, i - 1);
      assert chunks[..i][..i - 1] == chunks[..i - 1];
      NextMultiple(i - 1, chunk);
    }
  }

  lemma DeliveryIsCut(chunks: seq<Chunk>, data: seq<byte>, chunk: nat)
    requires Delivers(chunks, data, chunk)
    ensures Cut(chunks, data, chunk)
  {
    forall i: nat | i < |chunks| ensures CutAt(chunks, data, chunk, i) {
      FullPrefix(chunks, data, chunk, i);
      PayloadsPrefix(chunks, i + 1);
      assert chunks[..i + 1][..i] == chunks[..i];
      assert Payloads(chunks[..i + 1]) == Payloads(chunks[..i]) + chunks[i].payload;
      assert i + 1 == |chunks| ==> chunks[..i + 1] == chunks;
    }
  }

  class OutputNarWriter {
    const size: nat
    const chunk: nat
    var offset: nat
    var buffered: seq<byte>
    var sent: seq<Chunk>

    ghost function Abs(): State
      reads this
    {
      State(offset, buffered, sent)
    }

    constructor (size: nat, chunk: nat)
      requires chunk > 0
      ensures this.size == size && this.chunk == chunk && Abs() == EMPTY
      ensures Valid(Abs(), size, chunk)
    {
      this.size, this.chunk := size, chunk;
      offset, buffered, sent := 0, [], [];
    }

    method SendChunk(finalChunk: bool) returns (ok: bool)
      modifies this
      ensures ok == (old(buffered) != [])
      ensures Abs() == if ok then Sent(old(Abs()), finalChunk) else old(Abs())
    {
      if buffered == [] {
        return false;
      }
      sent := sent + [Chunk(offset, buffered, finalChunk)];
      offset := offset + |buffered|;
      buffered := [];
      return true;
    }

    /** One turn of the write loop: fill the buffer, and send it where it is full and not the
        end. */
    method TakeTurn(input: seq<byte>) returns (rest: seq<byte>)
      requires Valid(Abs(), size, chunk)
      modifies this
      ensures (Abs(), rest) == Turn(old(Abs()), input, size, chunk)
    {
      var available := chunk - |buffered|;
      var copied := if available < |input| then available else |input|;
      buffered := buffered + input[..copied];
      rest := input[copied..];
      if |buffered| == chunk && offset + |buffered| < size {
        var _ := SendChunk(false);
      }
    }

    method Write(input: seq<byte>)
      requires Valid(Abs(), size, chunk) && |input| <= Room(Abs(), size, chunk)
      modifies this
      ensures Valid(Abs(), size, chunk)
      ensures Received(Abs()) == Received(old(Abs())) + input
      ensures Room(Abs(), size, chunk) == Room(old(Abs()), size, chunk) - |input|
    {
      var rest := input;
      while rest != []
        invariant Valid(Abs(), size, chunk)
        invariant Received(Abs()) + rest == Received(old(Abs())) + input
        invariant Room(Abs(), size, chunk) - |rest| == Room(old(Abs()), size, chunk) - |input|
        decreases |rest|
      {
        TurnKeeps(Abs(), rest, size, chunk);
        rest := TakeTurn(rest);
      }
    }

    method Finish() returns (ok: bool)
      requires Valid(Abs(), size, chunk)
      modifies this
      ensures ok <==> size > 0 && |Received(old(Abs()))| == size
      ensures ok ==> Delivers(sent, Received(old(Abs())), chunk)
      ensures !ok ==> sent == old(sent)
    {
      if offset + |buffered| != size {
        return false;
      }
      if buffered != [] {
        LastDelivers(Abs(), size, chunk);
      }
      ok := SendChunk(true);
    }
  }

  /** `nar_from_path` into a fresh writer, then `finish`: under any sizes the stream's reads
      return, it succeeds exactly when the NAR is non-empty and the stream holds it all, and
      then delivers exactly the stream's first `size` bytes. */
  method ExportOutput(stream: seq<byte>, size: nat, chunk: nat) returns (ok: bool, chunks: seq<Chunk>)
    requires chunk > 0
    ensures ok <==> 0 < size <= |stream|
    ensures ok ==> Cut(chunks, stream[..size], chunk)
  {
    var sink := new OutputNarWriter(size, chunk);
    var taken := 0;
    while taken < size
      invariant 0 <= taken <= size && taken <= |stream|
      invariant Valid(sink.Abs(), size, chunk) && sink.size == size && sink.chunk == chunk
      invariant Received(sink.Abs()) == stream[..taken]
      invariant Room(sink.Abs(), size, chunk) >= size - taken
      invariant fresh(sink)
    {
      var remaining := size - taken;
      var maximum := if remaining < 8192 then remaining else 8192;
      if taken == |stream| {
        return false, sink.sent;
      }
      var read: int := *;
      if read < 1 || read > maximum || taken + read > |stream| {
        read := 1;
      }
      assert stream[..taken + read] == stream[..taken] + stream[taken..taken + read];
      sink.Write(stream[taken..taken + read]);
      taken := taken + read;
    }
    ok := sink.Finish();
    chunks := sink.sent;
    if ok {
      DeliveryIsCut(chunks, stream[..size], chunk);
    }
  }
}
