/**
 * Length-prefixed framing over an arbitrarily chunked byte stream (ts/linkself/src/framing.ts).
 */
module Framing {
  import opened Common

  const MAX_FRAME_SIZE := 0x10_0000

  /** `setUint32`, big-endian: the number modulo 2^32 in four bytes. */
  function U32(n: nat): (b: Bytes)
    ensures |b| == 4
  {
    var m := n % 0x1_0000_0000;
    U16(m / 0x1_0000) + U16(m % 0x1_0000)
  }

  function U16(n: nat): (b: Bytes)
    requires n < 0x1_0000
    ensures |b| == 2
  {
    [(n / 0x100) as byte, (n % 0x100) as byte]
  }

  function FromU16(b: Bytes): (n: nat)
    requires |b| == 2
  {
    b[0] as nat * 0x100 + b[1] as nat
  }

  function FromU32(b: Bytes): (n: nat)
    requires |b| == 4
  {
    FromU16(b[..2]) * 0x1_0000 + FromU16(b[2..])
  }

  lemma U16RoundTrip(n: nat)
    requires n < 0x1_0000
    ensures FromU16(U16(n)) == n
  {
  }

  lemma U32RoundTrip(n: nat)
    ensures FromU32(U32(n)) == n % 0x1_0000_0000
  {
    var m := n % 0x1_0000_0000;
    U16RoundTrip(m / 0x1_0000);
    U16RoundTrip(m % 0x1_0000);
    assert U32(n)[..2] == U16(m / 0x1_0000) && U32(n)[2..] == U16(m % 0x1_0000);
  }

  /** Most significant byte first. */
  lemma BigEndian(n: nat, b: Bytes)
    requires |b| == 4
    ensures FromU32(b) == b[0] as nat * 16_777_216 + b[1] as nat * 65_536 + b[2] as nat * 256 + b[3] as nat
    ensures n < 4_294_967_296 ==> FromU32(U32(n)) == n
  {
    U32RoundTrip(n);
  }

  function Encode(payload: Bytes): Bytes {
    U32(|payload|) + payload
  }

  function EncodeAll(payloads: seq<Bytes>): Bytes {
    if payloads == [] then [] else Encode(payloads[0]) + EncodeAll(payloads[1..])
  }

  function Flat(chunks: seq<Bytes>): Bytes {
    if chunks == [] then [] else chunks[0] + Flat(chunks[1..])
  }

  /** The bytes of the chunks, one after the other. */
  lemma {:induction false} FlatAppend(chunks: seq<Bytes>, c: Bytes)
    ensures Flat(chunks + [c]) == Flat(chunks) + c
  {
    if chunks == [] {
      assert chunks + [c] == [c] && [c][1..] == [];
    } else {
      assert (chunks + [c])[0] == chunks[0] && (chunks + [c])[1..] == chunks[1..] + [c];
      FlatAppend(chunks[1..], c);
    }
  }

  datatype ReadError = StreamEnded(wanted: nat, got: nat) | FrameTooLarge(length: nat)

  /** The result of reading n bytes off a stream, and the bytes left over. */
  function Take(s: Bytes, n: nat): (Result<Bytes, ReadError>, Bytes) {
    if |s| < n then (Err(StreamEnded(n, |s|)), s) else (Ok(s[..n]), s[n..])
  }

  function ParseFrame(s: Bytes): (Result<Bytes, ReadError>, Bytes) {
    if |s| < 4 then (Err(StreamEnded(4, |s|)), s)
    else
      var length := FromU32(s[..4]);
      if length > MAX_FRAME_SIZE then (Err(FrameTooLarge(length)), s[4..]) else Take(s[4..], length)
  }

  function ParseFrames(s: Bytes, k: nat): (Result<seq<Bytes>, ReadError>, Bytes) {
    if k == 0 then (Ok([]), s)
    else
      match ParseFrame(s) {
        case (Err(e), rest) => (Err(e), rest)
        case (Ok(p), rest) =>
          match ParseFrames(rest, k - 1) {
            case (Ok(ps), left) => (Ok([p] + ps), left)
            case (Err(e), left) => (Err(e), left)
          }
      }
  }

  /** A frame is the payload's length in four big-endian bytes (modulo 2^32) and then the payload. */
  lemma FrameLayout(payload: Bytes)
    ensures var f := Encode(payload);
            && |f| == 4 + |payload| && f[4..] == payload
            && f[0] as nat * 16_777_216 + f[1] as nat * 65_536 + f[2] as nat * 256 + f[3] as nat ==
               |payload| % 4_294_967_296
  {
    var f := Encode(payload);
    assert f[..4] == U32(|payload|);
    U32RoundTrip(|payload|);
    BigEndian(|payload|, f[..4]);
  }

  /** A frame reads back exactly when its payload is within the size limit. */
  lemma FrameRoundTripIff(payload: Bytes, rest: Bytes)
    ensures ParseFrame(Encode(payload) + rest) == (Ok(payload), rest) <==> |payload| <= 1_048_576
  {
    var s := Encode(payload) + rest;
    assert s[..4] == U32(|payload|);
    assert s[4..] == payload + rest;
    U32RoundTrip(|payload|);
    if |payload| <= MAX_FRAME_SIZE {
      assert (payload + rest)[..|payload|] == payload && (payload + rest)[|payload|..] == rest;
    }
  }

  /** What reading a frame comes to on any bytes: the stream may end early, or the length be too large. */
  lemma ParseFrameIff(s: Bytes)
    ensures var (r, rest) := ParseFrame(s);
            var length := if |s| < 4 then 0 else FromU32(s[..4]);
            && (|s| < 4 <==> r == Err(StreamEnded(4, |s|)) && rest == s)
            && (|s| >= 4 ==>
                  && (r == Err(FrameTooLarge(length)) <==> length > 1_048_576)
                  && (r == Err(StreamEnded(length, |s| - 4)) <==> length <= 1_048_576 && length > |s| - 4)
                  && (r.Err? ==> rest == s[4..])
                  && (r.Ok? ==> |r.value| == length && s == s[..4] + r.value + rest))
  {
    if |s| >= 4 {
      var length := FromU32(s[..4]);
      if length <= |s| - 4 {
        assert s == s[..4] + (s[4..][..length] + s[4..][length..]);
      }
    }
  }

  /** Any number of frames reads back in order, leaving exactly the bytes that follow. */
  lemma {:induction false} FramesRoundTrip(payloads: seq<Bytes>, rest: Bytes)
    requires forall p :: p in payloads ==> |p| <= MAX_FRAME_SIZE
    ensures ReadsBack(EncodeAll(payloads) + rest, payloads, rest)
  {
    if payloads == [] {
      assert EncodeAll(payloads) + rest == rest;
    } else {
      FramesRoundTrip(payloads[1..], rest);
      OneMoreFrame(payloads[0], EncodeAll(payloads[1..]), payloads[1..], rest);
      assert payloads == [payloads[0]] + payloads[1..];
    }
  }

  /** Reading as many frames as there are payloads off `s` yields them and leaves `rest`. */
  predicate ReadsBack(s: Bytes, payloads: seq<Bytes>, rest: Bytes) {
    ParseFrames(s, |payloads|) == (Ok(payloads), rest)
  }

  lemma OneMoreFrame(p: Bytes, more: Bytes, ps: seq<Bytes>, rest: Bytes)
    requires |p| <= MAX_FRAME_SIZE && ReadsBack(more + rest, ps, rest)
    ensures ReadsBack(Encode(p) + more + rest, [p] + ps, rest)
  {
    assert ParseFrame(Encode(p) + more + rest) == (Ok(p), more + rest) by {
      assert Encode(p) + more + rest == Encode(p) + (more + rest);
      FrameRoundTripIff(p, more + rest);
    }
    ParsesOneMore(Encode(p) + more + rest, p, more + rest, ps, rest);
  }

  lemma ParsesOneMore(s: Bytes, p: Bytes, tail: Bytes, ps: seq<Bytes>, rest: Bytes)
    requires ParseFrame(s) == (Ok(p), tail) && ReadsBack(tail, ps, rest)
    ensures ReadsBack(s, [p] + ps, rest)
  {
  }

  /** So the bytes determine the frames: different payload lists never share an encoding. */
  lemma {:induction false} EncodingIsInjective(ps: seq<Bytes>, qs: seq<Bytes>)
    requires forall p :: p in ps + qs ==> |p| <= MAX_FRAME_SIZE
    requires EncodeAll(ps) == EncodeAll(qs)
    ensures ps == qs
    decreases |ps|
  {
    if ps != [] && qs != [] {
      assert ps[0] in ps + qs && qs[0] in ps + qs;
      FrameRoundTripIff(ps[0], EncodeAll(ps[1..]));
      FrameRoundTripIff(qs[0], EncodeAll(qs[1..]));
      assert forall p :: p in ps[1..] + qs[1..] ==> p in ps + qs;
      EncodingIsInjective(ps[1..], qs[1..]);
      assert ps == [ps[0]] + ps[1..] && qs == [qs[0]] + qs[1..];
    } else {
      assert ps != [] ==> |EncodeAll(ps)| >= 4;
      assert qs != [] ==> |EncodeAll(qs)| >= 4;
    }
  }

  method EncodeFrame(payload: Bytes) returns (frame: array<byte>)
    ensures fresh(frame) && frame[..] == Encode(payload)
  {
    frame := new byte[4 + |payload|];
    var prefix := U32(|payload|);
    frame[0], frame[1], frame[2], frame[3] := prefix[0], prefix[1], prefix[2], prefix[3];
    for i := 0 to |payload|
      invariant frame[..4] == prefix && frame[4..4 + i] == payload[..i]
    {
      frame[4 + i] := payload[i];
      assert frame[4..4 + i + 1] == frame[4..4 + i] + [payload[i]];
    }
    assert frame[..] == frame[..4] + frame[4..4 + |payload|];
  }

  class StreamReader {
    /** What the stream's iterator has still to yield; empty chunks are possible. */
    var chunks: seq<Bytes>
    var buffer: Bytes

    /** All bytes still to be read, however they are split. */
    function Available(): Bytes
      reads this
    {
      buffer + Flat(chunks)
    }

    constructor (chunks: seq<Bytes>)
      ensures Available() == Flat(chunks)
    {
      this.chunks, buffer := chunks, [];
    }

    method Read(n: nat) returns (r: Result<Bytes, ReadError>)
      modifies this
      ensures (r, Available()) == Take(old(Available()), n)
    {
      while |buffer| < n
        invariant Available() == old(Available())
        decreases |chunks|
      {
        if chunks == [] {
          assert Available() == buffer;
          return Err(StreamEnded(n, |buffer|));
        }
        assert buffer + Flat(chunks) == buffer + chunks[0] + Flat(chunks[1..]);
        buffer := buffer + chunks[0];
        chunks := chunks[1..];
      }
      assert (buffer + Flat(chunks))[..n] == buffer[..n];
      assert (buffer + Flat(chunks))[n..] == buffer[n..] + Flat(chunks);
      r := Ok(buffer[..n]);
      buffer := buffer[n..];
    }

    method ReadUint32() returns (r: Result<nat, ReadError>)
      modifies this
      ensures var (bytes, rest) := Take(old(Available()), 4);
              && Available() == rest
              && r == if bytes.Ok? then Ok(FromU32(bytes.value)) else Err(bytes.error)
    {
      var b := Read(4);
      r := if b.Ok? then Ok(FromU32(b.value)) else Err(b.error);
    }

    /** Chunk-independent: only the bytes available matter, not how they are split. */
    method ReadFrame() returns (r: Result<Bytes, ReadError>)
      modifies this
      ensures (r, Available()) == ParseFrame(old(Available()))
    {
      var length := ReadUint32();
      if length.Err? {
        return Err(length.error);
      }
      if length.value > MAX_FRAME_SIZE {
        return Err(FrameTooLarge(length.value));
      }
      r := Read(length.value);
    }

    /** Frames in a row; no loop of the source's own, but what a caller of `readFrame` does. */
    method ReadFrames(k: nat) returns (r: Result<seq<Bytes>, ReadError>)
      modifies this
      ensures (r, Available()) == ParseFrames(old(Available()), k)
      decreases k
    {
      if k == 0 {
        return Ok([]);
      }
      var first := ReadFrame();
      if first.Err? {
        return Err(first.error);
      }
      var more := ReadFrames(k - 1);
      r := if more.Ok? then Ok([first.value] + more.value) else Err(more.error);
    }
  }

  /**
   * The round trip through the reader: however the encodings and what follows them are split into
   * chunks, reading as many frames as were written gives the payloads, and leaves what follows.
   */
  method ReadBack(chunks: seq<Bytes>, payloads: seq<Bytes>, rest: Bytes) returns (r: seq<Bytes>, left: StreamReader)
    requires Flat(chunks) == EncodeAll(payloads) + rest
    requires forall p :: p in payloads ==> |p| <= MAX_FRAME_SIZE
    ensures r == payloads && left.Available() == rest
  {
    left := new StreamReader(chunks);
    FramesRoundTrip(payloads, rest);
    assert ReadsBack(left.Available(), payloads, rest);
    var read := left.ReadFrames(|payloads|);
    r := read.value;
  }
}
