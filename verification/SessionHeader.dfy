/** The HTTP header phase of a MicroVM session stream: a bounded number of bytes, watched by
    a 32-bit shift register for the blank line that ends a header section (section 2.1 of
    RFC 9112). */
module SessionHeader {
  import opened Bytes

  const HEADER_LIMIT := 8192
  const READ_LIMIT := 1024
  const WORD := 0x1_0000_0000
  /** CR LF CR LF as a big-endian word. */
  const BLANK_WORD := 0x0d0a_0d0a

  /** The register after one more byte: shifted by eight bits, the top ones lost. */
  function Shift(tail: nat, b: byte): nat {
    (tail * 256) % WORD + b
  }

  function Register(s: seq<byte>): (r: nat)
    ensures r < WORD
  {
    if s == [] then 0 else Shift(Register(s[..|s| - 1]), s[|s| - 1])
  }

  /** CR LF CR LF are the four bytes before `k`. */
  ghost predicate BlankEndsAt(s: seq<byte>, k: nat) {
    4 <= k <= |s| && s[k - 4] == 13 && s[k - 3] == 10 && s[k - 2] == 13 && s[k - 1] == 10
  }

  /** The blank line occurs somewhere. */
  ghost predicate HasBlank(s: seq<byte>) {
    exists k :: BlankEndsAt(s, k)
  }

  function Digits(a: byte, b: byte, c: byte, d: byte): nat {
    ((a * 256 + b) * 256 + c) * 256 + d
  }

  lemma ShiftDigits(z: byte, a: byte, b: byte, c: byte, d: byte)
    ensures Shift(Digits(z, a, b, c), d) == Digits(a, b, c, d)
  {
    assert Digits(z, a, b, c) * 256 == z * WORD + Digits(a, b, c, 0);
    assert Digits(a, b, c, 0) < WORD;
  }

  /** The byte `i` places from the end, zero before the start. */
  function FromEnd(s: seq<byte>, i: nat): byte {
    if i < |s| then s[|s| - 1 - i] else 0
  }

  lemma TailShifts(t: seq<byte>, d: byte)
    ensures FromEnd(t + [d], 0) == d && FromEnd(t + [d], 1) == FromEnd(t, 0)
    ensures FromEnd(t + [d], 2) == FromEnd(t, 1) && FromEnd(t + [d], 3) == FromEnd(t, 2)
  {
  }

  /** The register holds the last four bytes. */
  lemma {:induction false} RegisterIsTail(s: seq<byte>)
    ensures Register(s) == Digits(FromEnd(s, 3), FromEnd(s, 2), FromEnd(s, 1), FromEnd(s, 0))
    decreases |s|
  {
    if s != [] {
      var t, d := s[..|s| - 1], s[|s| - 1];
      assert s == t + [d];
      RegisterIsTail(t);
      TailShifts(t, d);
      ShiftDigits(FromEnd(t, 3), FromEnd(t, 2), FromEnd(t, 1), FromEnd(t, 0), d);
    }
  }

  lemma DigitsUnique(a: byte, b: byte, c: byte, d: byte)
    ensures Digits(a, b, c, d) == BLANK_WORD <==> a == 13 && b == 10 && c == 13 && d == 10
  {
  }

  /** It reads CR LF CR LF exactly when the stream so far ends so. */
  lemma RegisterRecognises(s: seq<byte>)
    ensures Register(s) == BLANK_WORD <==> BlankEndsAt(s, |s|)
  {
    RegisterIsTail(s);
    DigitsUnique(FromEnd(s, 3), FromEnd(s, 2), FromEnd(s, 1), FromEnd(s, 0));
  }

  lemma HasBlankGrows(s: seq<byte>, b: byte)
    ensures HasBlank(s + [b]) <==> HasBlank(s) || BlankEndsAt(s + [b], |s| + 1)
  {
    var t := s + [b];
    if HasBlank(s) {
      var k :| BlankEndsAt(s, k);
      assert BlankEndsAt(t, k);
    }
    if HasBlank(t) && !BlankEndsAt(t, |t|) {
      var k :| BlankEndsAt(t, k);
      assert BlankEndsAt(s, k);
    }
  }

  lemma ByteWatched(s: seq<byte>, b: byte)
    ensures Register(s + [b]) == Shift(Register(s), b)
    ensures HasBlank(s + [b]) <==> HasBlank(s) || Shift(Register(s), b) == BLANK_WORD
  {
    assert (s + [b])[..|s|] == s;
    HasBlankGrows(s, b);
    RegisterRecognises(s + [b]);
  }

  function Min(a: nat, b: nat): (r: nat)
    ensures r <= a && r <= b && (r == a || r == b)
  {
    if a < b then a else b
  }

  class SessionStream {
    /** The bytes counted while in the header phase; none after it. */
    var headerBytes: int
    var inHeader: bool
    var headerTail: nat
    var headerComplete: bool
    /** All bytes delivered during the header phase. */
    ghost var header: seq<byte>

    ghost predicate Valid()
      reads this
    {
      && |header| <= HEADER_LIMIT
      && (inHeader ==> headerBytes == |header| && headerTail == Register(header))
      && (headerComplete <==> HasBlank(header))
    }

    constructor ()
      ensures Valid() && inHeader && header == []
    {
      headerBytes, inHeader, headerTail, headerComplete, header := 0, true, 0, false, [];
    }

    /** Each delivered byte goes through the register. */
    method Watch(output: seq<byte>)
      requires headerTail == Register(header) && (headerComplete <==> HasBlank(header))
      modifies `headerTail, `headerComplete, `header
      ensures header == old(header) + output
      ensures headerTail == Register(header) && (headerComplete <==> HasBlank(header))
    {
      var i := 0;
      while i < |output|
        invariant 0 <= i <= |output|
        invariant header == old(header) + output[..i]
        invariant headerTail == Register(header) && (headerComplete <==> HasBlank(header))
      {
        assert output[..i + 1] == output[..i] + [output[i]];
        ByteWatched(header, output[i]);
        headerTail := Shift(headerTail, output[i]);
        header := header + [output[i]];
        if headerTail == BLANK_WORD {
          headerComplete := true;
        }
        i := i + 1;
      }
      assert output[..i] == output;
    }

    /** `read` into a buffer of `size` bytes, where `socket` is what the socket has to give: as
        much of it as fits, and in the header phase at most 1024 bytes and what is left of 8192.
        It fails at the limit. */
    method Read(size: nat, socket: seq<byte>) returns (ok: bool, output: seq<byte>)
      requires Valid()
      modifies this
      ensures Valid() && inHeader == old(inHeader)
      ensures ok <==> size == 0 || !inHeader || |old(header)| < 8192
      ensures |output| <= size && output <= socket && (!ok ==> output == [])
      ensures header == old(header) + if inHeader then output else []
      ensures inHeader ==> |output| <= 1024 && |header| <= 8192
      ensures ok && !inHeader ==> |output| == Min(|socket|, size)
      ensures ok && inHeader && size > 0 ==> |output| == Min(Min(|socket|, size), Min(8192 - |old(header)|, 1024))
    {
      ok, output := true, [];
      if size == 0 {
        return;
      }
      if !inHeader {
        output := if |socket| < size then socket else socket[..size];
        return;
      }
      if headerBytes >= HEADER_LIMIT {
        ok := false;
        return;
      }
      var maximum := Min(Min(size, HEADER_LIMIT - headerBytes), READ_LIMIT);
      output := if |socket| < maximum then socket else socket[..maximum];
      headerBytes := headerBytes + |output|;
      Watch(output);
    }

    /** The websocket handshake is over. */
    method EndHeader()
      requires Valid()
      modifies this
      ensures Valid() && !inHeader && header == old(header) && headerComplete == old(headerComplete)
    {
      inHeader := false;
    }
  }

  lemma PrefixGrows(s: seq<byte>, taken: nat, given: nat, output: seq<byte>)
    requires taken + given <= |s| && output <= s[taken..taken + given]
    ensures s[..taken] + output == s[..taken + |output|]
  {
  }

  /** A whole header phase, cut into reads in any way: however often the caller asks, whatever
      sizes it asks for and the socket gives, what was delivered is a prefix of what arrived,
      at most 8192 bytes, and completion is flagged exactly when the blank line is in it. */
  method HeaderPhase(arriving: seq<byte>) returns (delivered: seq<byte>, complete: bool)
    ensures delivered <= arriving && |delivered| <= 8192
    ensures complete <==> HasBlank(delivered)
  {
    var stream := new SessionStream();
    delivered := [];
    var more: bool := *;
    while more && |delivered| < |arriving|
      invariant stream.Valid() && stream.inHeader && stream.header == delivered
      invariant |delivered| <= |arriving| && delivered == arriving[..|delivered|]
      decreases |arriving| - |delivered|
    {
      var size: int := *;
      if size < 1 { size := 1; }
      var given: int := *;
      if given < 1 || given > |arriving| - |delivered| { given := 1; }
      var ok, output := stream.Read(size, arriving[|delivered|..|delivered| + given]);
      PrefixGrows(arriving, |delivered|, given, output);
      delivered := delivered + output;
      if !ok {
        break;
      }
      more := *;
    }
    complete := stream.headerComplete;
  }
}
