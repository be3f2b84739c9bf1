/** Readers over a byte stream.  `Reader` stands for the `impl Read` that the decoders are
    generic over: the session input itself, or a `FramedReader` over it, which yields the
    payloads of length-prefixed frames until a zero frame. */
module Streams {
  import opened Basics
  import opened Bytes
  import opened Wire
  import opened Budget

  /** What a reader has left: the bytes it can still yield, and the input behind them where
      the stream comes to a proper end. */
  datatype View = Flow(logical: seq<byte>, end: Option<seq<byte>>)

  function Prepend(c: seq<byte>, v: View): View {
    Flow(c + v.logical, v.end)
  }

  /** The frames that remain: `remaining` bytes of the current one, then the rest.  A stream
      cut off before its zero frame yields what is there and has no end. */
  function Unframe(remaining: nat, finished: bool, input: seq<byte>): View
    decreases |input|
  {
    if finished then Flow([], Some(input))
    else if remaining > 0 then
      if |input| < remaining then Flow(input, None)
      else Prepend(input[..remaining], Unframe(0, false, input[remaining..]))
    else
      match ParseInt(input)
      case Failed => Flow([], None)
      case Parsed(n, rest) => if n == 0 then Flow([], Some(rest)) else Unframe(n, false, rest)
  }

  // ----- framing is undone whatever the frames -----

  function EncodeFrame(chunk: seq<byte>): seq<byte> {
    EncodeInt(AsU64(|chunk|)) + chunk
  }

  function EncodeFrames(chunks: seq<seq<byte>>): seq<byte> {
    EncodeItems(EncodeFrame, chunks) + EncodeInt(0)
  }

  ghost function Concat(chunks: seq<seq<byte>>): seq<byte> {
    if chunks == [] then [] else chunks[0] + Concat(chunks[1..])
  }

  ghost predicate FrameSizes(chunks: seq<seq<byte>>) {
    forall i :: 0 <= i < |chunks| ==> 0 < |chunks[i]| <= MAX_U64
  }

  lemma FramesPrepend(c: seq<byte>, chunks: seq<seq<byte>>, after: seq<byte>)
    requires 0 < |c| <= MAX_U64 && FrameSizes(chunks)
    ensures FrameSizes([c] + chunks) && Concat([c] + chunks) == c + Concat(chunks)
    ensures EncodeFrames([c] + chunks) + after == EncodeInt(|c|) + (c + (EncodeFrames(chunks) + after))
  {
    var all := [c] + chunks;
    assert all[0] == c && all[1..] == chunks;
    Regroup(EncodeInt(|c|), c, EncodeItems(EncodeFrame, chunks), EncodeInt(0), after);
  }

  lemma Regroup(a: seq<byte>, b: seq<byte>, c: seq<byte>, d: seq<byte>, e: seq<byte>)
    ensures ((a + b) + c + d) + e == a + (b + ((c + d) + e))
  {
  }

  lemma UnframeFrame(c: seq<byte>, more: seq<byte>)
    requires 0 < |c| <= MAX_U64
    ensures Unframe(0, false, EncodeInt(|c|) + (c + more)) == Prepend(c, Unframe(0, false, more))
  {
    IntRoundTrip(|c|, c + more);
    assert (c + more)[..|c|] == c && (c + more)[|c|..] == more;
    assert Unframe(|c|, false, c + more) == Prepend(c, Unframe(0, false, more));
  }

  /** Reading frames gives the concatenation of their payloads and stops right after the
      zero frame. */
  lemma {:induction false} UnframeInvertsFrames(chunks: seq<seq<byte>>, rest: seq<byte>)
    requires FrameSizes(chunks)
    ensures Unframe(0, false, EncodeFrames(chunks) + rest) == Flow(Concat(chunks), Some(rest))
    decreases |chunks|
  {
    if chunks == [] {
      assert EncodeFrames(chunks) == EncodeInt(0);
      IntRoundTrip(0, rest);
    } else {
      var c, tail := chunks[0], chunks[1..];
      assert chunks == [c] + tail;
      FramesPrepend(c, tail, rest);
      UnframeFrame(c, EncodeFrames(tail) + rest);
      UnframeInvertsFrames(tail, rest);
    }
  }

  /** Conversely a framed stream with an end is the framing of some non-empty payloads. */
  lemma {:induction false} EndedIsFramed(input: seq<byte>) returns (chunks: seq<seq<byte>>)
    requires Unframe(0, false, input).end.Some?
    ensures FrameSizes(chunks)
    ensures var v := Unframe(0, false, input);
            Concat(chunks) == v.logical && input == EncodeFrames(chunks) + v.end.value
    decreases |input|
  {
    IntCanonical(input);
    var Parsed(n, rest) := ParseInt(input);
    if n == 0 {
      chunks := [];
      assert EncodeFrames(chunks) == EncodeInt(0);
    } else {
      var c, more := rest[..n], rest[n..];
      assert rest == c + more;
      UnframeFrame(c, more);
      var tail := EndedIsFramed(more);
      chunks := [c] + tail;
      FramesPrepend(c, tail, Unframe(0, false, more).end.value);
    }
  }

  lemma {:induction false} ConcatAppend(chunks: seq<seq<byte>>, c: seq<byte>)
    ensures Concat(chunks + [c]) == Concat(chunks) + c
    decreases |chunks|
  {
    if chunks == [] {
      assert Concat([c]) == c + Concat([]);
    } else {
      assert (chunks + [c])[0] == chunks[0] && (chunks + [c])[1..] == chunks[1..] + [c];
      ConcatAppend(chunks[1..], c);
    }
  }

  lemma FrameAppended(out: seq<byte>, chunks: seq<seq<byte>>, c: seq<byte>)
    ensures out + EncodeItems(EncodeFrame, chunks + [c]) == out + EncodeItems(EncodeFrame, chunks) + EncodeFrame(c)
    ensures Concat(chunks + [c]) == Concat(chunks) + c
  {
    EncodeItemsAppend(EncodeFrame, chunks, c);
    ConcatAppend(chunks, c);
    Assoc(out, EncodeItems(EncodeFrame, chunks), EncodeFrame(c));
  }

  /** The client's NAR upload: the source in frames of at most 8192 bytes, whatever sizes
      its reads return, then the zero frame. */
  method WriteNarFrames(out: seq<byte>, source: seq<byte>) returns (r: seq<byte>, ghost chunks: seq<seq<byte>>)
    ensures r == out + EncodeFrames(chunks) && FrameSizes(chunks) && Concat(chunks) == source
    ensures forall i :: 0 <= i < |chunks| ==> |chunks[i]| <= 8192
  {
    r, chunks := out, [];
    var taken := 0;
    while taken < |source|
      invariant 0 <= taken <= |source|
      invariant r == out + EncodeItems(EncodeFrame, chunks) && Concat(chunks) == source[..taken]
      invariant forall i :: 0 <= i < |chunks| ==> 0 < |chunks[i]| <= 8192
    {
      var read: int := *;
      if read < 1 || read > 8192 || taken + read > |source| {
        read := 1;
      }
      var buffer := source[taken..taken + read];
      assert source[..taken + read] == source[..taken] + buffer;
      FrameAppended(out, chunks, buffer);
      r := r + (EncodeInt(read) + buffer);
      chunks := chunks + [buffer];
      taken := taken + read;
    }
    r := r + EncodeInt(0);
    assert source[..taken] == source;
    Assoc(out, EncodeItems(EncodeFrame, chunks), EncodeInt(0));
  }

  /** A framed reader over an upload gets the source back and stops right behind it. */
  method UploadNar(source: seq<byte>, after: seq<byte>) returns (r: seq<byte>)
    ensures Unframe(0, false, r + after) == Flow(source, Some(after))
  {
    ghost var chunks;
    r, chunks := WriteNarFrames([], source);
    assert r == EncodeFrames(chunks);
    UnframeInvertsFrames(chunks, after);
  }

  // ----- readers -----

  /** A read behaves as `parsed`, a grammar applied to the bytes before it. */
  ghost predicate Conforms<T(!new)>(before: View, parsed: Parsed<T>, r: Result<T>, after: View) {
    if parsed.Failed? then r.Failure?
    else r == Success(parsed.value) && after == Flow(parsed.rest, before.end)
  }

  function TakeExact(s: seq<byte>, n: nat): Parsed<seq<byte>> {
    if |s| < n then Failed else Parsed(s[..n], s[n..])
  }

  /** A string whose padded length is charged before its bytes are read. */
  function ParseCharged(s: seq<byte>, limit: nat, room: int): (r: Parsed<seq<byte>>)
    ensures r.Parsed? ==> |r.value| <= limit && Padded(|r.value|) <= room
  {
    match ParseString(s, limit)
    case Parsed(v, rest) => if Padded(|v|) > room then Failed else Parsed(v, rest)
    case Failed => Failed
  }

  function ViewOf(framed: bool, remaining: nat, finished: bool, input: seq<byte>): View {
    if framed then Unframe(remaining, finished, input) else Flow(input, Some([]))
  }

  /** Some facts are stated for every mark, so that a decoder that only passes them on does
      not look into them; a proof that needs one names a mark. */
  ghost predicate Mark(k: int) { true }

  /** A value under a seal.  Decoders name their grammars sealed, so that passing one on does
      not unfold it; `Unsealed` opens the one it names. */
  ghost function Sealed<T>(x: T): (y: T)
    ensures Is(y, x)
  {
    assert Is(x, x);
    var y :| Is(y, x);
    y
  }

  ghost predicate Is<T>(y: T, x: T) {
    forall k {:trigger Mark(k)} :: Mark(k) ==> y == x
  }

  lemma Unsealed<T>(x: T)
    ensures Sealed(x) == x
  {
    assert Mark(0);
  }

  ghost predicate IsView(framed: bool, remaining: nat, finished: bool, input: seq<byte>, v: View) {
    forall k {:trigger Mark(k)} :: Mark(k) ==> v == ViewOf(framed, remaining, finished, input)
  }

  class Reader {
    const framed: bool
    var input: seq<byte>
    var remaining: nat
    var finished: bool

    ghost function View(): (v: View)
      reads this
      ensures IsView(framed, remaining, finished, input, v)
      ensures !framed ==> v == Flow(input, Some([]))
    {
      assert Mark(0);
      assert IsView(framed, remaining, finished, input, ViewOf(framed, remaining, finished, input));
      var v :| IsView(framed, remaining, finished, input, v);
      v
    }

    constructor Plain(input: seq<byte>)
      ensures !framed && View() == Flow(input, Some([]))
    {
      framed, this.input, remaining, finished := false, input, 0, false;
    }

    constructor Framed(input: seq<byte>)
      ensures framed && View() == Unframe(0, false, input)
    {
      framed, this.input, remaining, finished := true, input, 0, false;
      new;
      assert Mark(0);
    }

    /** `Read::read`: at most `n` bytes off the front, none only at a proper end, and a
        failure only where a framed stream is cut off within the bytes asked for. */
    method Read(n: nat) returns (r: Result<seq<byte>>)
      modifies this
      ensures r.Success? ==>
                && |r.value| <= n && r.value <= old(View()).logical
                && View() == Flow(old(View()).logical[|r.value|..], old(View()).end)
                && (n > 0 && r.value == [] ==> old(View()).logical == [] && old(View()).end.Some?)
      ensures r.Failure? ==> n > |old(View()).logical| && old(View()).end.None?
      ensures r == Success([]) && framed && n > 0 ==> finished && Some(input) == old(View()).end
    {
      assert Mark(0);
      if n == 0 {
        return Success([]);
      }
      if !framed {
        var count: int := *;
        if count < 1 || count > n || count > |input| {
          count := if |input| == 0 then 0 else 1;
        }
        r := Success(input[..count]);
        input := input[count..];
        return;
      }
      if finished {
        return Success([]);
      }
      if remaining == 0 {
        var frame := ParseInt(input);
        if frame.Failed? {
          return Failure;
        }
        remaining, input := frame.value, frame.rest;
        if remaining == 0 {
          finished := true;
          return Success([]);
        }
      }
      assert old(View()) == Unframe(remaining, false, input);
      var count := if n < remaining then n else remaining;
      if |input| < count {
        return Failure;
      }
      r := Success(input[..count]);
      UnframeAdvance(remaining, input, count);
      remaining, input := remaining - count, input[count..];
    }

    /** `Read::read_exact`: reads until `n` bytes are in, failing at the end of the stream. */
    method ReadExact(n: nat) returns (r: Result<seq<byte>>)
      modifies this
      ensures Conforms(old(View()), TakeExact(old(View()).logical, n), r, View())
      ensures r.Success? ==> |r.value| == n
    {
      ghost var start := View();
      var got := [];
      while |got| < n
        invariant |got| <= n && |got| <= |start.logical|
        invariant got == start.logical[..|got|] && View() == Flow(start.logical[|got|..], start.end)
        decreases n - |got|
      {
        var chunk := Read(n - |got|);
        if chunk.Failure? || chunk.value == [] {
          return Failure;
        }
        PrefixGrows(start.logical, |got|, chunk.value);
        got := got + chunk.value;
      }
      return Success(got);
    }

    method ReadInteger() returns (r: Result<u64>)
      modifies this
      ensures Conforms(old(View()), ParseInt(old(View()).logical), r, View())
    {
      var bytes := ReadExact(8);
      if bytes.Failure? {
        return Failure;
      }
      return Success(DecodeInt(bytes.value));
    }

    /** Payload and padding of a string in one buffer. */
    method ReadBody(length: nat) returns (r: Result<seq<byte>>)
      modifies this
      ensures Conforms(old(View()), ParseBody(old(View()).logical, length), r, View())
      ensures r.Success? ==> |r.value| == length
    {
      ghost var body := View().logical;
      var frame := ReadExact(Padded(length));
      if frame.Failure? {
        return Failure;
      }
      assert frame.value[length..] == body[length..Padded(length)];
      assert frame.value[..length] == body[..length];
      return if AllZero(frame.value[length..]) then Success(frame.value[..length]) else Failure;
    }

    /** The whole-buffer reader: the length, then the body. */
    method ReadString(limit: nat) returns (r: Result<seq<byte>>)
      modifies this
      ensures Conforms(old(View()), ParseString(old(View()).logical, limit), r, View())
    {
      var length := ReadInteger();
      if length.Failure? || length.value > limit {
        return Failure;
      }
      r := ReadBody(length.value);
    }

    /** The same, charging the padded length first; a failure drops the charge again. */
    method ReadCharged(limit: nat, budget: SessionBudget) returns (r: Result<seq<byte>>)
      requires budget.Valid()
      modifies this, budget
      ensures Conforms(old(View()), ParseCharged(old(View()).logical, limit, budget.maximum - old(budget.retained)), r, View())
      ensures budget.Valid()
      ensures budget.retained == old(budget.retained) + if r.Success? then Padded(|r.value|) else 0
    {
      var length := ReadInteger();
      if length.Failure? || length.value > limit {
        return Failure;
      }
      var charged := budget.Charge(Padded(length.value));
      if !charged {
        return Failure;
      }
      r := ReadBody(length.value);
      if r.Failure? {
        budget.Release(Padded(length.value));
      }
    }

    /** The streaming form of a string's body: at most 4096 bytes at a time, checking the
        padding in the last buffer. */
    method DiscardBody(length: nat) returns (ok: bool)
      modifies this
      ensures var parsed := ParseBody(old(View()).logical, length);
              && (ok <==> parsed.Parsed?)
              && (ok ==> View() == Flow(parsed.rest, old(View()).end))
    {
      ghost var start := View();
      ghost var body := start.logical;
      PaddingFormula(length);
      var padding := (8 - length % 8) % 8;
      var left := length + padding;
      assert left == Padded(length);
      ghost var done, words := 0, left / 8;
      while left > 0
        invariant 0 <= left == 8 * words && done + left == length + padding && done <= |body|
        invariant View() == Flow(body[done..], start.end)
        invariant left == 0 ==> AllZero(body[length..length + padding])
        decreases left
      {
        var size := if left < 4096 then left else 4096;
        var buffer := ReadExact(size);
        if buffer.Failure? {
          return false;
        }
        NextSlice(body, done, size, length, padding);
        if left == size && padding > 0 && !AllZero(buffer.value[size - padding..size]) {
          return false;
        }
        done, words := done + size, words - size / 8;
        left := left - size;
      }
      return true;
    }

    /** The streaming reader accepts what the whole-buffer reader accepts and leaves the
        same rest. */
    method DiscardString(limit: nat) returns (ok: bool)
      modifies this
      ensures var parsed := ParseString(old(View()).logical, limit);
              && (ok <==> parsed.Parsed?)
              && (ok ==> View() == Flow(parsed.rest, old(View()).end))
    {
      var length := ReadInteger();
      if length.Failure? || length.value > limit {
        return false;
      }
      ok := DiscardBody(length.value);
    }
  }

  /** A buffer is the next slice of the body, and the padding is the tail of the last one. */
  lemma NextSlice(body: seq<byte>, done: nat, size: nat, length: nat, padding: nat)
    requires done + size <= |body| && padding <= size
    ensures body[done..][size..] == body[done + size..]
    ensures done + size == length + padding ==> body[done..][..size][size - padding..size] == body[length..length + padding]
  {
  }

  lemma PrefixGrows(s: seq<byte>, taken: nat, more: seq<byte>)
    requires taken <= |s| && more <= s[taken..]
    ensures taken + |more| <= |s|
    ensures s[..taken] + more == s[..taken + |more|] && s[taken..][|more|..] == s[taken + |more|..]
  {
  }

  /** Taking bytes out of the current frame takes them off the front of the view. */
  lemma UnframeAdvance(remaining: nat, input: seq<byte>, count: nat)
    requires 0 < count <= remaining && count <= |input|
    ensures var v, w := Unframe(remaining, false, input), Unframe(remaining - count, false, input[count..]);
            && |v.logical| >= count && v.logical[..count] == input[..count]
            && w == Flow(v.logical[count..], v.end)
  {
    if |input| >= remaining {
      assert input[count..][remaining - count..] == input[remaining..];
      var l := Unframe(0, false, input[remaining..]).logical;
      assert input[..remaining] + l == input[..count] + (input[count..remaining] + l);
      if count < remaining {
        assert input[count..][..remaining - count] == input[count..remaining];
      } else {
        assert input[count..remaining] + l == l;
      }
    }
  }
}
