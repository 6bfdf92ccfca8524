/**
 The wire framing of `crates/forge3d/src/protocol.rs`: a four-byte big-endian length and then
 the payload. `Decode` is what one read from a stream gives, `DecodeAll` what reading until the
 stream ends gives.
 */
module Frames {

  type Byte = b: int | 0 <= b < 0x100

  type Bytes = seq<Byte>

  const MAX_FRAME_BYTES: nat := 4 * 1024 * 1024

  const U32: nat := 0x1_0000_0000

  // The last k base-256 digits of n, most significant first.
  function BigEndian(n: nat, k: nat): (h: Bytes)
    ensures |h| == k
  {
    if k == 0 then [] else BigEndian(n / 0x100, k - 1) + [n % 0x100]
  }

  function FromBigEndian(h: Bytes): nat {
    if h == [] then 0 else FromBigEndian(h[..|h| - 1]) * 0x100 + h[|h| - 1]
  }

  const HEADER_LEN: nat := 4

  function Header(len: nat): (h: Bytes)
    ensures |h| == HEADER_LEN
  {
    BigEndian(len % U32, HEADER_LEN)
  }

  // The length is cast to 32 bits.
  function Encode(payload: Bytes): Bytes {
    Header(|payload|) + payload
  }

  function EncodeAll(payloads: seq<Bytes>): Bytes {
    if payloads == [] then [] else Encode(payloads[0]) + EncodeAll(payloads[1..])
  }

  datatype Decoded =
    | Frame(payload: Bytes, rest: Bytes)
    | Eof
    | TooLong(len: int)
    | CutOff

  function Decode(input: Bytes): Decoded {
    if |input| < 4 then Eof
    else
      var len := FromBigEndian(input[..4]);
      if len > MAX_FRAME_BYTES then TooLong(len)
      else if |input| < 4 + len then CutOff
      else Frame(input[4..4 + len], input[4 + len..])
  }

  datatype Stream = Stream(frames: seq<Bytes>, end: Decoded)

  function DecodeAll(input: Bytes): (s: Stream)
    ensures !s.end.Frame?
    decreases |input|
  {
    match Decode(input)
    case Frame(payload, rest) =>
      var tail := DecodeAll(rest);
      Stream([payload] + tail.frames, tail.end)
    case other => Stream([], other)
  }

  // ----- the reader and the writer -----

  class Reader {
    var rest: Bytes

    constructor (input: Bytes)
      ensures rest == input
    {
      rest := input;
    }

    // Fills a buffer of n bytes, or uses up the stream and fails.
    method ReadExact(n: nat) returns (ok: bool, buf: Bytes)
      modifies this
      ensures ok <==> |old(rest)| >= n
      ensures ok ==> buf == old(rest)[..n] && rest == old(rest)[n..]
      ensures !ok ==> rest == []
    {
      if |rest| < n {
        rest := [];
        return false, [];
      }
      buf := rest[..n];
      rest := rest[n..];
      return true, buf;
    }

    method DecodeFrame() returns (d: Decoded)
      modifies this
      ensures d == Decode(old(rest))
      ensures rest == if d.Frame? then d.rest else if d.TooLong? then old(rest)[4..] else []
    {
      var ok, header := ReadExact(4);
      if !ok {
        return Eof;
      }
      var len := FromBigEndian(header);
      if len > MAX_FRAME_BYTES {
        return TooLong(len);
      }
      var buf;
      ok, buf := ReadExact(len);
      if !ok {
        return CutOff;
      }
      return Frame(buf, rest);
    }
  }

  class Writer {
    var written: Bytes

    constructor ()
      ensures written == []
    {
      written := [];
    }

    method WriteAll(bytes: Bytes)
      modifies this
      ensures written == old(written) + bytes
    {
      written := written + bytes;
    }

    method WriteFrame(payload: Bytes)
      modifies this
      ensures written == old(written) + Encode(payload)
    {
      WriteAll(Header(|payload|));
      WriteAll(payload);
    }
  }

  // ----- one frame -----

  function Power256(k: nat): nat {
    if k == 0 then 1 else 0x100 * Power256(k - 1)
  }

  lemma {:induction false} BigEndianRoundTrip(n: nat, k: nat)
    requires n < Power256(k)
    ensures FromBigEndian(BigEndian(n, k)) == n
  {
    if k > 0 {
      BigEndianRoundTrip(n / 0x100, k - 1);
      assert BigEndian(n, k)[..k - 1] == BigEndian(n / 0x100, k - 1);
    }
  }

  lemma HeaderRoundTrip(len: nat)
    ensures FromBigEndian(Header(len)) == len % U32
  {
    assert Power256(1) == 0x100 && Power256(2) == 0x1_0000 && Power256(3) == 0x100_0000 && Power256(4) == U32;
    BigEndianRoundTrip(len % U32, 4);
  }

  /** The header is the length's four bytes, the most significant first. */
  lemma HeaderBytes(len: nat)
    requires len < U32
    ensures Header(len) == [len / 0x100_0000, len / 0x1_0000 % 0x100, len / 0x100 % 0x100, len % 0x100]
  {
    var a, b, c := len / 0x100, len / 0x1_0000, len / 0x100_0000;
    assert a / 0x100 == b && b / 0x100 == c && c / 0x100 == 0;
    assert BigEndian(c, 1) == BigEndian(0, 0) + [c] == [c];
    assert BigEndian(b, 2) == [c] + [b % 0x100];
    assert BigEndian(a, 3) == [c] + [b % 0x100] + [a % 0x100];
    assert BigEndian(len, 4) == BigEndian(a, 3) + [len % 0x100];
  }

  /** One read, for any bytes whatever: fewer than four are a clean end; four give a length, and
      one above the limit is refused whatever follows; otherwise so many bytes are the payload,
      or the frame is cut off. */
  lemma DecodeCases(a: Byte, b: Byte, c: Byte, d: Byte, rest: Bytes, short: Bytes)
    requires |short| < 4
    ensures Decode(short) == Eof
    ensures var len := a * 0x100_0000 + b * 0x1_0000 + c * 0x100 + d;
            Decode([a, b, c, d] + rest) ==
            if len > 4_194_304 then TooLong(len)
            else if |rest| < len then CutOff
            else Frame(rest[..len], rest[len..])
  {
    var input, h := [a, b, c, d] + rest, [a, b, c, d];
    assert input[..4] == h;
    assert h[..3] == [a, b, c] && h[..3][..2] == [a, b] && h[..3][..2][..1] == [a] && h[..3][..2][..1][..0] == [];
    assert FromBigEndian([a]) == a;
    assert FromBigEndian([a, b]) == a * 0x100 + b by { assert [a, b][..1] == [a]; }
    assert FromBigEndian([a, b, c]) == (a * 0x100 + b) * 0x100 + c by { assert [a, b, c][..2] == [a, b]; }
    assert FromBigEndian(h) == ((a * 0x100 + b) * 0x100 + c) * 0x100 + d by { assert h[..3] == [a, b, c]; }
    var len := FromBigEndian(h);
    if len <= |rest| {
      assert input[4..4 + len] == rest[..len] && input[4 + len..] == rest[len..];
    }
  }

  /** A frame decodes to its payload, leaving the rest of the stream, exactly when the payload
      is within the limit; the writer does not check that. */
  lemma FrameRoundTripIff(payload: Bytes, rest: Bytes)
    ensures Decode(Encode(payload) + rest) == Frame(payload, rest) <==> |payload| <= MAX_FRAME_BYTES
  {
    var n := |payload| % U32;
    var input := Encode(payload) + rest;
    HeaderRoundTrip(|payload|);
    assert input[..4] == Header(|payload|);
    if |payload| <= MAX_FRAME_BYTES {
      assert n == |payload|;
      assert input[4..4 + n] == payload && input[4 + n..] == rest;
    } else {
      assert n <= MAX_FRAME_BYTES ==> |input[4..4 + n]| < |payload|;
    }
  }

  // ----- streams -----

  ghost predicate AllFit(payloads: seq<Bytes>) {
    forall i :: 0 <= i < |payloads| ==> |payloads[i]| <= MAX_FRAME_BYTES
  }

  /** Reading a stream of frames to its end gives back exactly the payloads that were written,
      if and only if every one of them is within the limit. */
  lemma {:induction false} StreamRoundTripIff(payloads: seq<Bytes>)
    ensures DecodeAll(EncodeAll(payloads)) == Stream(payloads, Eof) <==> AllFit(payloads)
    decreases |payloads|
  {
    if payloads != [] {
      var first, others := payloads[0], payloads[1..];
      StreamRoundTripIff(others);
      FrameRoundTripIff(first, EncodeAll(others));
      assert payloads == [first] + others;
      if |first| <= MAX_FRAME_BYTES {
        assert AllFit(payloads) <==> AllFit(others);
        var tail := DecodeAll(EncodeAll(others));
        assert DecodeAll(EncodeAll(payloads)) == Stream([first] + tail.frames, tail.end);
        assert ([first] + tail.frames)[1..] == tail.frames;
      } else {
        var d := Decode(EncodeAll(payloads));
        if d.Frame? && DecodeAll(EncodeAll(payloads)) == Stream(payloads, Eof) {
          assert DecodeAll(EncodeAll(payloads)).frames[0] == d.payload;
          LongPayloadDiffers(first, EncodeAll(others));
        }
      }
    }
  }

  lemma LongPayloadDiffers(payload: Bytes, rest: Bytes)
    requires |payload| > MAX_FRAME_BYTES
    ensures var d := Decode(Encode(payload) + rest); d.Frame? ==> |d.payload| < |payload|
  {
    HeaderRoundTrip(|payload|);
    assert (Encode(payload) + rest)[..4] == Header(|payload|);
  }

  // The first n bytes of the stream read as the payloads of its first k frames, which are those
  // that lie wholly within them. What is left over is reported as an error if it holds a whole
  // header and as a clean end otherwise.
  ghost predicate ReadsFirst(payloads: seq<Bytes>, n: nat, k: nat)
    requires n <= |EncodeAll(payloads)| && k <= |payloads|
  {
    var used := |EncodeAll(payloads[..k])|;
    && used <= n
    && (k < |payloads| ==> n < |EncodeAll(payloads[..k + 1])|)
    && DecodeAll(EncodeAll(payloads)[..n]) == Stream(payloads[..k], if n - used < 4 then Eof else CutOff)
  }

  /** Safety under any cut: reading the first n bytes of a stream of frames gives exactly the
      payloads whose frames lie wholly within them, never another payload. */
  lemma {:induction false} AnyPrefixIsSafe(payloads: seq<Bytes>, n: nat) returns (k: nat)
    requires AllFit(payloads) && n <= |EncodeAll(payloads)|
    ensures k <= |payloads| && ReadsFirst(payloads, n, k)
    decreases |payloads|
  {
    k := 0;
    if payloads != [] {
      if n < |Encode(payloads[0])| {
        ReadsNone(payloads, n);
      } else {
        k := AnyPrefixIsSafe(payloads[1..], n - |Encode(payloads[0])|);
        ReadsOneMore(payloads, n, k);
        k := k + 1;
      }
    }
  }

  /** A clean end is reported at a frame boundary, and also for a cut inside a header: what was
      read is then not all there was. */
  lemma CleanEndIff(payloads: seq<Bytes>, n: nat)
    requires AllFit(payloads) && n <= |EncodeAll(payloads)|
    ensures var cut := EncodeAll(payloads)[..n];
            var used := |EncodeAll(DecodeAll(cut).frames)|;
            && DecodeAll(cut).end in {Eof, CutOff}
            && (DecodeAll(cut).end == Eof <==> EncodeAll(DecodeAll(cut).frames) == cut || 0 < n - used < 4)
  {
    var k := AnyPrefixIsSafe(payloads, n);
    EncodePrefix(payloads, k);
    var used := EncodeAll(payloads[..k]);
    assert EncodeAll(payloads)[..n][..|used|] == used;
  }

  lemma {:induction false} EncodePrefix(payloads: seq<Bytes>, k: nat)
    requires k <= |payloads|
    ensures EncodeAll(payloads[..k]) <= EncodeAll(payloads)
  {
    if k > 0 {
      EncodePrefix(payloads[1..], k - 1);
      PrefixCons(payloads, k);
    }
  }

  // One byte of a header: the reader sees the same as at the end of a stream of no frames.
  lemma CutHeaderExample(payload: Bytes)
    ensures var cut := Encode(payload)[..1]; DecodeAll(cut) == Stream([], Eof) && EncodeAll([]) != cut
  {
  }

  lemma ReadsNone(payloads: seq<Bytes>, n: nat)
    requires AllFit(payloads) && payloads != [] && n < |Encode(payloads[0])|
    ensures n <= |EncodeAll(payloads)| && ReadsFirst(payloads, n, 0)
  {
    ShortFrame(payloads[0], EncodeAll(payloads[1..]), n);
    assert payloads[..1][0] == payloads[0] && payloads[..1][1..] == [];
  }

  lemma ReadsOneMore(payloads: seq<Bytes>, n: nat, k: nat)
    requires AllFit(payloads) && payloads != [] && |Encode(payloads[0])| <= n <= |EncodeAll(payloads)|
    requires k < |payloads| && ReadsFirst(payloads[1..], n - |Encode(payloads[0])|, k)
    ensures ReadsFirst(payloads, n, k + 1)
  {
    WholeFrame(payloads[0], EncodeAll(payloads[1..]), n);
    PrefixCons(payloads, k + 1);
    if k + 1 < |payloads| {
      PrefixCons(payloads, k + 2);
    }
  }

  // Bytes that hold a whole frame read as its payload and what the others read as.
  lemma WholeFrame(payload: Bytes, rest: Bytes, n: nat)
    requires |payload| <= MAX_FRAME_BYTES && |Encode(payload)| <= n <= |Encode(payload) + rest|
    ensures var tail := DecodeAll(rest[..n - |Encode(payload)|]);
            DecodeAll((Encode(payload) + rest)[..n]) == Stream([payload] + tail.frames, tail.end)
  {
    var left := rest[..n - |Encode(payload)|];
    assert (Encode(payload) + rest)[..n] == Encode(payload) + left;
    FrameRoundTripIff(payload, left);
  }

  lemma PrefixCons(payloads: seq<Bytes>, k: nat)
    requires 0 < k <= |payloads|
    ensures payloads[..k] == [payloads[0]] + payloads[1..][..k - 1]
    ensures EncodeAll(payloads[..k]) == Encode(payloads[0]) + EncodeAll(payloads[1..][..k - 1])
  {
    assert payloads[..k][1..] == payloads[1..][..k - 1];
  }

  lemma ShortFrame(payload: Bytes, rest: Bytes, n: nat)
    requires |payload| <= MAX_FRAME_BYTES && n < |Encode(payload)|
    ensures Decode((Encode(payload) + rest)[..n]) == if n < 4 then Eof else CutOff
  {
    var input := (Encode(payload) + rest)[..n];
    if 4 <= n {
      HeaderRoundTrip(|payload|);
      assert input[..4] == Header(|payload|);
    }
  }
}
