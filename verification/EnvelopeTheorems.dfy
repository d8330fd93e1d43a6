/** Round trips of the envelope codec. */
module EnvelopeTheorems {
  import opened Wrappers
  import opened EnvelopeCodec

  predicate Fits(e: Envelope) { |e.payload| <= 32 * 1024 * 1024 }

  // ------------------------------------------------ the wire format

  /** The stream ends at an envelope exactly when the bit 0x02 of its flags is set, whatever the other bits. */
  lemma EndBit(e: Envelope)
    ensures IsEndStream(e) <==> (e.flags as bv8) & 0x02 == 0x02
  {
    var bits := e.flags as bv8;
    assert bits as int == e.flags;
    assert (bits & 0x02 == 0x02) <==> (bits / 2) % 2 == 1;
  }

  /** The encoding byte by byte: flags, the length with the highest byte first, the payload. */
  lemma WireBytes(e: Envelope)
    ensures var s := Encode(e);
      && s[0] == e.flags
      && (s[1] as int * 16777216 + s[2] as int * 65536 + s[3] as int * 256 + s[4] as int) == |e.payload| % 4294967296
      && forall i :: 0 <= i < |e.payload| ==> s[5 + i] == e.payload[i]
  {
    Read32OfBig32(|e.payload| % TWO_32);
  }

  /** What five bytes of header and the bytes behind them stand for, for both decoders. */
  lemma HeaderBytes(flags: byte, b3: byte, b2: byte, b1: byte, b0: byte, rest: seq<byte>)
    ensures
      var data, n := [flags, b3, b2, b1, b0] + rest, b3 as int * 16777216 + b2 as int * 65536 + b1 as int * 256 + b0;
      if n > 33554432 then
        Decode(data) == (Err(TooLarge(n)), rest) && DecodeFromBytes(data) == Err(LengthTooLarge)
      else if n > |rest| then
        && Decode(data) == (Err(if rest == [] then EndOfStream else Truncated), [])
        && DecodeFromBytes(data) == Err(PayloadTruncated)
      else
        Decode(data) == (Ok(Envelope(flags, rest[..n])), rest[n..])
  {
    var data := [flags, b3, b2, b1, b0] + rest;
    var header := [flags, b3, b2, b1, b0];
    assert data[..5] == header && data[5..] == rest;
    assert header[1..5] == data[1..5] == [b3, b2, b1, b0];
  }

  /** Fewer bytes than a header. */
  lemma ShortBytes(data: seq<byte>)
    requires |data| < 5
    ensures Decode(data) == (Err(if data == [] then EndOfStream else Truncated), [])
    ensures DecodeFromBytes(data) == Err(TooShort)
  {
  }

  // ------------------------------------------------ one envelope

  lemma DecodeHeader(e: Envelope, rest: seq<byte>)
    ensures
      var data := Encode(e) + rest;
      data[0] == e.flags && data[1..5] == Big32(|e.payload| % TWO_32) && data[5..] == e.payload + rest
  {
  }

  /** Decoding what was encoded gives the envelope back and leaves the rest, exactly for payloads of up to
      32 MiB. */
  lemma RoundTrip(e: Envelope, rest: seq<byte>)
    ensures Decode(Encode(e) + rest) == (Ok(e), rest) <==> Fits(e)
  {
    var data := Encode(e) + rest;
    DecodeHeader(e, rest);
    Read32OfBig32(|e.payload| % TWO_32);
    assert data[..5][1..5] == data[1..5];
    if Fits(e) {
      assert data[5..][..|e.payload|] == e.payload;
      assert data[5..][|e.payload|..] == rest;
    }
  }

  /** The two decoders accept the same bytes with the same result, exactly when the 32-bit comparison does not
      wrap below a length that is really there. */
  lemma DecodersAgree(data: seq<byte>)
    ensures
      var wraps := |data| >= 5 && (|data| - 5) % TWO_32 < Read32(data[1..5]) <= |data| - 5
                   && Read32(data[1..5]) <= MAX_PAYLOAD;
      var a, b := Decode(data).0, DecodeFromBytes(data);
      && (wraps <==> a.Ok? != b.Ok?)
      && (a.Ok? && b.Ok? ==> a.value == b.value)
      && (|data| < TWO_32 ==> a.Ok? == b.Ok?)
  {
    if |data| >= 5 {
      assert data[..5][1..5] == data[1..5];
      var length := Read32(data[1..5]);
      if |data| - 5 >= length {
        assert data[5..][..length] == data[5..5 + length];
      }
      if |data| < TWO_32 {
        assert (|data| - 5) % TWO_32 == |data| - 5;
      }
    }
  }

  // ------------------------------------------------ streams

  function EncodeAll(es: seq<Envelope>): seq<byte> {
    if es == [] then [] else Encode(es[0]) + EncodeAll(es[1..])
  }

  /** Up to and including the first envelope that ends the stream or that the handler refuses. */
  function Until(es: seq<Envelope>, k: nat, c: Caller): seq<Envelope> {
    if es == [] then []
    else if c.fails(k, es[0]) || IsEndStream(es[0]) then [es[0]]
    else [es[0]] + Until(es[1..], k + 1, c)
  }

  /** Whether Until stopped at such an envelope. */
  predicate Stops(es: seq<Envelope>, k: nat, c: Caller) {
    es != [] && (c.fails(k, es[0]) || IsEndStream(es[0]) || Stops(es[1..], k + 1, c))
  }

  lemma ParseStep(e: Envelope, rest: seq<byte>)
    requires Fits(e)
    ensures Parse(Encode(e) + rest) == ([e] + Parse(rest).0, Parse(rest).1)
  {
    RoundTrip(e, rest);
  }

  /** Parsing the encodings of `es` followed by `tail` gives `es` and then whatever is in the tail. */
  lemma {:induction false} ParseOver(es: seq<Envelope>, tail: seq<byte>)
    requires forall i :: 0 <= i < |es| ==> Fits(es[i])
    ensures Parse(EncodeAll(es) + tail) == (es + Parse(tail).0, Parse(tail).1)
    decreases |es|
  {
    if es == [] {
      assert EncodeAll(es) + tail == tail;
      assert es + Parse(tail).0 == Parse(tail).0;
    } else {
      EncodeAllCons(es, tail);
      ParseStep(es[0], EncodeAll(es[1..]) + tail);
      ParseOver(es[1..], tail);
      ConsAppend(es, Parse(tail).0);
    }
  }

  lemma EncodeAllCons(es: seq<Envelope>, tail: seq<byte>)
    requires es != []
    ensures EncodeAll(es) + tail == Encode(es[0]) + (EncodeAll(es[1..]) + tail)
  {
    Assoc(Encode(es[0]), EncodeAll(es[1..]), tail);
  }

  lemma Assoc(a: seq<byte>, b: seq<byte>, c: seq<byte>)
    ensures (a + b) + c == a + (b + c)
  {
  }

  lemma ConsAppend(es: seq<Envelope>, more: seq<Envelope>)
    requires es != []
    ensures [es[0]] + (es[1..] + more) == es + more
  {
  }

  lemma ParseAll(es: seq<Envelope>)
    requires forall i :: 0 <= i < |es| ==> Fits(es[i])
    ensures Parse(EncodeAll(es)) == (es, EndOfStream)
  {
    ParseOver(es, []);
    assert EncodeAll(es) + [] == EncodeAll(es);
    assert Parse([]) == ([], EndOfStream);
    assert es + [] == es;
  }

  /** How the stream ends at its last handled envelope, the `k`-th. */
  function Ending(e: Envelope, k: nat, c: Caller): Outcome {
    if c.fails(k, e) then HandlerFailed else if c.trailerError(e.payload) then StreamFailed else Clean
  }

  /** Handling stops where Until says. */
  lemma {:induction false} HandleIsUntil(es: seq<Envelope>, stop: ReadError, k: nat, c: Caller)
    ensures Handle(es, stop, k, c).0 == Until(es, k, c)
    ensures
      var u := Until(es, k, c);
      Stops(es, k, c) ==> u != [] && Handle(es, stop, k, c).1 == Ending(u[|u| - 1], k + |u| - 1, c)
    ensures !Stops(es, k, c) ==>
      Until(es, k, c) == es
      && Handle(es, stop, k, c).1 == (if stop == EndOfStream then Clean else DecodeFailed(stop))
    decreases |es|
  {
    if es != [] {
      HandleIsUntil(es[1..], stop, k + 1, c);
      assert [es[0]] + es[1..] == es;
    }
  }

  /** The handler sees exactly the encoded list, up to and including the first end-stream envelope or the
      first one it refuses. */
  lemma StreamRoundTrip(es: seq<Envelope>, c: Caller)
    requires forall i :: 0 <= i < |es| ==> Fits(es[i])
    ensures Stream(EncodeAll(es), c).0 == Until(es, 0, c)
    ensures
      var u := Until(es, 0, c);
      Stops(es, 0, c) ==> u != [] && Stream(EncodeAll(es), c).1 == Ending(u[|u| - 1], |u| - 1, c)
    ensures !Stops(es, 0, c) ==> Stream(EncodeAll(es), c) == (es, Clean)
  {
    ParseAll(es);
    HandleIsUntil(es, EndOfStream, 0, c);
  }

  /** The handler stops the stream, or bit 0x02 of the flags does. */
  predicate StopsHere(e: Envelope, k: nat, c: Caller) { c.fails(k, e) || e.flags % 4 >= 2 }

  /** The first envelope, by position, that the handler refuses or whose bit 0x02 is set is the last one the
      handler sees, and nothing behind it is looked at. */
  lemma StopsAtFirst(es: seq<Envelope>, k: nat, tail: seq<byte>, c: Caller)
    requires k < |es| && forall i :: 0 <= i < |es| ==> Fits(es[i])
    requires StopsHere(es[k], k, c) && forall i :: 0 <= i < k ==> !StopsHere(es[i], i, c)
    ensures Stream(EncodeAll(es) + tail, c) ==
      (es[..k + 1], if c.fails(k, es[k]) then HandlerFailed
                    else if c.trailerError(es[k].payload) then StreamFailed else Clean)
  {
    var more, stop := StreamOver(es, tail, c);
    HandleUpTo(es, more, stop, k, c);
  }

  lemma HandleUpTo(es: seq<Envelope>, more: seq<Envelope>, stop: ReadError, k: nat, c: Caller)
    requires k < |es| && StopsHere(es[k], k, c) && forall i :: 0 <= i < k ==> !StopsHere(es[i], i, c)
    ensures Handle(es + more, stop, 0, c) ==
      (es[..k + 1], if c.fails(k, es[k]) then HandlerFailed
                    else if c.trailerError(es[k].payload) then StreamFailed else Clean)
  {
    HandleFirst(es, more, stop, 0, k, c);
  }

  lemma StreamOver(es: seq<Envelope>, tail: seq<byte>, c: Caller) returns (more: seq<Envelope>, stop: ReadError)
    requires forall i :: 0 <= i < |es| ==> Fits(es[i])
    ensures Stream(EncodeAll(es) + tail, c) == Handle(es + more, stop, 0, c)
  {
    ParseOver(es, tail);
    more, stop := Parse(tail).0, Parse(tail).1;
  }

  lemma {:induction false} HandleFirst(es: seq<Envelope>, more: seq<Envelope>, stop: ReadError, from: nat, k: nat,
                                       c: Caller)
    requires k < |es|
    requires StopsHere(es[k], from + k, c) && forall i :: 0 <= i < k ==> !StopsHere(es[i], from + i, c)
    ensures Handle(es + more, stop, from, c) ==
      (es[..k + 1], if c.fails(from + k, es[k]) then HandlerFailed
                    else if c.trailerError(es[k].payload) then StreamFailed else Clean)
    decreases k
  {
    assert (es + more)[1..] == es[1..] + more;
    if k > 0 {
      assert !StopsHere(es[0], from + 0, c);
      forall i | 0 <= i < k - 1 ensures !StopsHere(es[1..][i], from + 1 + i, c) {
        assert !StopsHere(es[i + 1], from + (i + 1), c);
      }
      HandleFirst(es[1..], more, stop, from + 1, k - 1, c);
      assert es[..k + 1] == [es[0]] + es[1..][..k];
    } else {
      assert es[..1] == [es[0]];
    }
  }

  /** A proper part of one encoding holds no envelope, and is taken for a clean end exactly at the start and
      right after the header of a non-empty payload. */
  lemma PartialEnvelope(e: Envelope, cut: nat)
    requires Fits(e) && cut < |Encode(e)|
    ensures Parse(Encode(e)[..cut]) == ([], if cut == 0 || cut == 5 then EndOfStream else Truncated)
  {
    var data := Encode(e)[..cut];
    if cut >= 5 {
      DecodeHeader(e, []);
      assert Encode(e) + [] == Encode(e);
      assert |e.payload| % TWO_32 == |e.payload|;
      assert data[..5][1..5] == Encode(e)[1..5];
      Read32OfBig32(|e.payload|);
      assert |data[5..]| == cut - 5;
    }
  }

  /** How many whole envelopes lie within the first `cut` bytes. */
  function WholeWithin(es: seq<Envelope>, cut: nat): nat {
    if es == [] || cut < |Encode(es[0])| then 0 else 1 + WholeWithin(es[1..], cut - |Encode(es[0])|)
  }

  /** What a cut leaves of the envelope it goes through. */
  function Remnant(es: seq<Envelope>, cut: nat): nat {
    if es == [] then 0
    else if cut < |Encode(es[0])| then cut
    else Remnant(es[1..], cut - |Encode(es[0])|)
  }

  lemma {:induction false} CutSplits(es: seq<Envelope>, cut: nat)
    requires cut <= |EncodeAll(es)|
    ensures
      var n := WholeWithin(es, cut);
      && n <= |es|
      && (n < |es| ==> Remnant(es, cut) < |Encode(es[n])|)
      && EncodeAll(es)[..cut] == EncodeAll(es[..n]) + (if n == |es| then [] else Encode(es[n])[..Remnant(es, cut)])
    decreases |es|
  {
    if es != [] {
      var first, n := Encode(es[0]), WholeWithin(es, cut);
      if cut < |first| {
        assert es[..0] == [];
        TakeConcat(first, EncodeAll(es[1..]), cut);
      } else {
        var rest := es[1..];
        CutSplits(rest, cut - |first|);
        var tail := if n == |es| then [] else Encode(es[n])[..Remnant(es, cut)];
        assert EncodeAll(rest)[..cut - |first|] == EncodeAll(rest[..n - 1]) + tail;
        TakeConcat(first, EncodeAll(rest), cut);
        Assoc(first, EncodeAll(rest[..n - 1]), tail);
        EncodeFirst(es, n);
      }
    }
  }

  lemma EncodeFirst(es: seq<Envelope>, n: nat)
    requires 1 <= n <= |es|
    ensures EncodeAll(es[..n]) == Encode(es[0]) + EncodeAll(es[1..][..n - 1])
  {
    assert es[..n][1..] == es[1..][..n - 1];
  }

  lemma TakeConcat(a: seq<byte>, b: seq<byte>, n: nat)
    requires n <= |a + b|
    ensures (a + b)[..n] == if n < |a| then a[..n] else a + b[..n - |a|]
  {
  }

  /** A cut stream parses to the whole envelopes before the cut, and then ends cleanly or truncated. */
  lemma CutParse(es: seq<Envelope>, cut: nat)
    requires forall i :: 0 <= i < |es| ==> Fits(es[i])
    requires cut <= |EncodeAll(es)|
    ensures
      var n := WholeWithin(es, cut);
      n <= |es| &&
      Parse(EncodeAll(es)[..cut]) ==
        (es[..n], if n == |es| || Remnant(es, cut) in {0, 5} then EndOfStream else Truncated)
  {
    var n, part := WholeWithin(es, cut), Remnant(es, cut);
    CutSplits(es, cut);
    var tail := if n == |es| then [] else Encode(es[n])[..part];
    ParseOver(es[..n], tail);
    if n < |es| {
      PartialEnvelope(es[n], part);
    } else {
      assert Parse([]) == ([], EndOfStream);
    }
    assert es[..n] + [] == es[..n];
  }

  /** Cut the bytes anywhere: the handler sees only whole envelopes, namely those before the cut up to the
      stop; and if there was none, the cut goes unnoticed exactly between two envelopes and right after the
      header of a non-empty payload. */
  lemma CutStream(es: seq<Envelope>, cut: nat, c: Caller)
    requires forall i :: 0 <= i < |es| ==> Fits(es[i])
    requires cut <= |EncodeAll(es)|
    ensures
      var n := WholeWithin(es, cut);
      n <= |es| &&
      var r := Stream(EncodeAll(es)[..cut], c);
      && r.0 == Until(es[..n], 0, c)
      && (!Stops(es[..n], 0, c) ==>
           r == (es[..n], if n == |es| || Remnant(es, cut) in {0, 5} then Clean else DecodeFailed(Truncated)))
  {
    CutParse(es, cut);
    HandleIsUntil(es[..WholeWithin(es, cut)], Parse(EncodeAll(es)[..cut]).1, 0, c);
  }
}
