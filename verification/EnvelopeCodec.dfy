/**
 The streaming envelopes of internal/envd/codec.go (Enveloped-Message in the
 Connect protocol): one byte of flags, a 32-bit big-endian length, the payload.
 */
module EnvelopeCodec {
  import opened Wrappers

  type byte = n: int | 0 <= n < 256

  datatype Envelope = Envelope(flags: byte, payload: seq<byte>)

  const MAX_PAYLOAD := 0x200_0000       // 32 MiB
  const TWO_32 := 0x1_0000_0000

  /** Flags & 0x02 */
  predicate IsEndStream(e: Envelope) { (e.flags / 2) % 2 == 1 }

  // ------------------------------------------------ encoding

  /** binary.BigEndian.PutUint32 */
  function Big32(n: nat): (s: seq<byte>)
    requires n < TWO_32
    ensures |s| == 4
  {
    [n / 0x100_0000, (n / 0x1_0000) % 0x100, (n / 0x100) % 0x100, n % 0x100]
  }

  /** binary.BigEndian.Uint32 */
  function Read32(s: seq<byte>): (n: nat)
    requires |s| == 4
    ensures n < TWO_32
  {
    s[0] as int * 0x100_0000 + s[1] as int * 0x1_0000 + s[2] as int * 0x100 + s[3] as int
  }

  lemma Read32OfBig32(n: nat)
    requires n < TWO_32
    ensures Read32(Big32(n)) == n
  {
    assert n / 0x1_0000 == (n / 0x100) / 0x100;
    assert n / 0x100_0000 == (n / 0x1_0000) / 0x100;
  }

  /** EncodeEnvelope on an already marshalled payload; the length field keeps 32 bits. */
  function Encode(e: Envelope): (s: seq<byte>)
    ensures |s| == 5 + |e.payload|
  {
    [e.flags] + Big32(|e.payload| % TWO_32) + e.payload
  }

  // ------------------------------------------------ decoding

  /** EndOfStream is io.EOF: not one byte could be read.  Truncated is io.ErrUnexpectedEOF. */
  datatype ReadError = EndOfStream | Truncated | TooLarge(length: nat)

  /** io.ReadFull for `n` bytes: the bytes or the error, and what is left to read. */
  function TakeFull(data: seq<byte>, n: nat): (Result<seq<byte>, ReadError>, seq<byte>) {
    if |data| >= n then (Ok(data[..n]), data[n..])
    else if data == [] then (Err(EndOfStream), [])
    else (Err(Truncated), [])
  }

  /** DecodeEnvelope: the envelope or the error, and what is left to read. */
  function Decode(data: seq<byte>): (r: (Result<Envelope, ReadError>, seq<byte>))
    ensures |r.1| <= |data| && (r.0.Ok? ==> |r.1| + 5 <= |data|)
  {
    var (header, rest) := TakeFull(data, 5);
    match header
    case Err(e) => (Err(e), rest)
    case Ok(h) =>
      var length := Read32(h[1..5]);
      if length > MAX_PAYLOAD then (Err(TooLarge(length)), rest)
      else
        var (payload, rest') := TakeFull(rest, length);
        (match payload
         case Err(e) => (Err(e), rest')
         case Ok(p) => (Ok(Envelope(h[0], p)), rest'))
  }

  datatype BytesError = TooShort | LengthTooLarge | PayloadTruncated

  /** DecodeEnvelopeFromBytes: the length comparison is made on 32 bits. */
  function DecodeFromBytes(data: seq<byte>): Result<Envelope, BytesError> {
    if |data| < 5 then Err(TooShort)
    else
      var length := Read32(data[1..5]);
      if length > MAX_PAYLOAD then Err(LengthTooLarge)
      else if (|data| - 5) % TWO_32 < length then Err(PayloadTruncated)
      else Ok(Envelope(data[0], data[5..5 + length]))
  }

  /** A stream of bytes being read. */
  class Reader {
    var rest: seq<byte>

    constructor (data: seq<byte>)
      ensures rest == data
    {
      rest := data;
    }

    method ReadFull(n: nat) returns (r: Result<seq<byte>, ReadError>)
      modifies this
      ensures (r, rest) == TakeFull(old(rest), n)
    {
      if |rest| >= n {
        r := Ok(rest[..n]);
        rest := rest[n..];
      } else {
        r := Err(if |rest| == 0 then EndOfStream else Truncated);
        rest := [];
      }
    }
  }

  method DecodeEnvelope(r: Reader) returns (env: Result<Envelope, ReadError>)
    modifies r
    ensures (env, r.rest) == Decode(old(r.rest))
  {
    var header := r.ReadFull(5);
    if header.Err? {
      return Err(header.error);
    }
    var length := Read32(header.value[1..5]);
    if length > MAX_PAYLOAD {
      return Err(TooLarge(length));
    }
    var payload := r.ReadFull(length);
    if payload.Err? {
      return Err(payload.error);
    }
    env := Ok(Envelope(header.value[0], payload.value));
  }

  // ------------------------------------------------ reading a whole stream

  datatype Outcome = Clean | HandlerFailed | DecodeFailed(error: ReadError) | StreamFailed

  /** What the caller of ReadStream brings: whether its handler fails on the k-th envelope, and whether the
      JSON of a trailer holds an error. */
  datatype Caller = Caller(fails: (nat, Envelope) -> bool, trailerError: seq<byte> -> bool)

  /** All envelopes in the data, and the error that ends them. */
  function Parse(data: seq<byte>): (seq<Envelope>, ReadError)
    decreases |data|
  {
    var (env, rest) := Decode(data);
    match env
    case Err(e) => ([], e)
    case Ok(e) =>
      var (es, stop) := Parse(rest);
      ([e] + es, stop)
  }

  /** What becomes of envelopes `es` and the error `stop` behind them: the envelopes the handler is called on,
      and how ReadStream ends; `k` were handled before. */
  function Handle(es: seq<Envelope>, stop: ReadError, k: nat, c: Caller): (seq<Envelope>, Outcome) {
    if es == [] then ([], if stop == EndOfStream then Clean else DecodeFailed(stop))
    else if c.fails(k, es[0]) then ([es[0]], HandlerFailed)
    else if IsEndStream(es[0]) then ([es[0]], if c.trailerError(es[0].payload) then StreamFailed else Clean)
    else
      var (handled, o) := Handle(es[1..], stop, k + 1, c);
      ([es[0]] + handled, o)
  }

  function Stream(data: seq<byte>, c: Caller): (seq<Envelope>, Outcome) {
    Handle(Parse(data).0, Parse(data).1, 0, c)
  }

  /** One more envelope handled. */
  lemma HandleMore(handled: seq<Envelope>, e: Envelope, rest: seq<Envelope>, stop: ReadError, c: Caller)
    requires !c.fails(|handled|, e) && !IsEndStream(e)
    ensures
      var all, more := Handle([e] + rest, stop, |handled|, c), Handle(rest, stop, |handled| + 1, c);
      handled + all.0 == handled + [e] + more.0 && all.1 == more.1
  {
    assert ([e] + rest)[1..] == rest;
  }

  method ReadStream(r: Reader, c: Caller) returns (handled: seq<Envelope>, o: Outcome)
    modifies r
    ensures (handled, o) == Stream(old(r.rest), c)
  {
    handled := [];
    ghost var left := Parse(r.rest);
    assert [] + Handle(left.0, left.1, 0, c).0 == Handle(left.0, left.1, 0, c).0;
    while true
      invariant left == Parse(r.rest)
      invariant Stream(old(r.rest), c)
             == (handled + Handle(left.0, left.1, |handled|, c).0, Handle(left.0, left.1, |handled|, c).1)
      decreases |r.rest|
    {
      var env := DecodeEnvelope(r);
      if env == Err(EndOfStream) {
        assert handled + [] == handled;
        return handled, Clean;
      }
      if env.Err? {
        assert handled + [] == handled;
        return handled, DecodeFailed(env.error);
      }
      ghost var rest := Parse(r.rest);
      assert left == ([env.value] + rest.0, rest.1);
      assert left.0[1..] == rest.0;
      var k := |handled|;
      if c.fails(k, env.value) {
        return handled + [env.value], HandlerFailed;
      }
      if IsEndStream(env.value) {
        return handled + [env.value], if c.trailerError(env.value.payload) then StreamFailed else Clean;
      }
      HandleMore(handled, env.value, rest.0, rest.1, c);
      handled := handled + [env.value];
      left := rest;
    }
  }
}
