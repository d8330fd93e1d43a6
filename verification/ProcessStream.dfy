/** The process output stream of internal/envd/process.go. */
module ProcessStream {
  import opened Wrappers
  import opened EnvelopeCodec
  import opened EnvelopeTheorems
  import opened Base64

  datatype DataEvent = DataEvent(stdout: string, stderr: string)
  datatype EndEvent = EndEvent(exitCode: int, error: string)

  /** An event; start and keepalive events carry neither data nor end. */
  datatype Event = Event(data: Option<DataEvent>, end: Option<EndEvent>)

  /** What the JSON of an envelope holds: nothing readable, no event, or an event. */
  type Unmarshal = seq<byte> -> Option<Option<Event>>

  // ------------------------------------------------ what ReadAll computes

  datatype Output = Output(stdout: seq<byte>, stderr: seq<byte>, exitCode: int)

  datatype Failure = BadEnvelope(error: ReadError) | BadJson | ProcessError(message: string)

  /** The bytes a chunk adds; one that does not decode adds none. */
  function Chunk(s: string): seq<byte> {
    if s == "" then [] else match Decode64(s) case None => [] case Some(b) => b
  }

  function Absorb(o: Output, e: Event): Output {
    Output(o.stdout + (if e.data.Some? then Chunk(e.data.value.stdout) else []),
           o.stderr + (if e.data.Some? then Chunk(e.data.value.stderr) else []),
           if e.end.Some? then e.end.value.exitCode else o.exitCode)
  }

  /** What ReadAll returns beside an error other than the process's own. */
  const NOTHING := Output([], [], -1)

  /** Reading envelopes `es` followed by the error `stop`, with `o` collected before. */
  function Collect(es: seq<Envelope>, stop: ReadError, o: Output, json: Unmarshal): (Output, Option<Failure>) {
    if es == [] then if stop == EndOfStream then (o, None) else (NOTHING, Some(BadEnvelope(stop)))
    else match json(es[0].payload)
      case None => (NOTHING, Some(BadJson))
      case Some(event) =>
        var o' := if event.Some? then Absorb(o, event.value) else o;
        if event.Some? && event.value.end.Some? && event.value.end.value.error != ""
        then (o', Some(ProcessError(event.value.end.value.error)))
        else if IsEndStream(es[0]) then (o', None)
        else Collect(es[1..], stop, o', json)
  }

  // ------------------------------------------------ the code

  class Process {
    const reader: Reader
    var stdout: seq<byte>
    var stderr: seq<byte>
    var exitCode: int
    var done: bool

    ghost function View(): Output
      reads this
    {
      Output(stdout, stderr, exitCode)
    }

    constructor (reader: Reader)
      ensures this.reader == reader && View() == Output([], [], 0) && !done
    {
      this.reader := reader;
      stdout, stderr, exitCode, done := [], [], 0, false;
    }

    /** Read: None is the end of the stream.  A successful read takes at least five bytes. */
    method Read(json: Unmarshal) returns (r: Result<Option<Event>, Option<Failure>>)
      modifies this`done, reader
      ensures old(done) ==> r == Err(None) && done && reader.rest == old(reader.rest)
      ensures !old(done) ==>
        var (env, rest) := Decode(old(reader.rest));
        && reader.rest == rest
        && (match env
            case Err(EndOfStream) => r == Err(None) && done
            case Err(e) => r == Err(Some(BadEnvelope(e))) && !done
            case Ok(e) =>
              && |reader.rest| + 5 <= |old(reader.rest)|
              && (match json(e.payload)
                  case None => r == Err(Some(BadJson)) && !done
                  case Some(event) => r == Ok(event) && done == IsEndStream(e)))
    {
      if done {
        return Err(None);
      }
      var env := DecodeEnvelope(reader);
      if env == Err(EndOfStream) {
        done := true;
        return Err(None);
      }
      if env.Err? {
        return Err(Some(BadEnvelope(env.error)));
      }
      var resp := json(env.value.payload);
      if resp.None? {
        return Err(Some(BadJson));
      }
      if IsEndStream(env.value) {
        done := true;
      }
      r := Ok(resp.value);
    }

    /** The body of the loop after a successful read. */
    method Take(event: Event) returns (failed: Option<Failure>)
      modifies this`stdout, this`stderr, this`exitCode
      ensures View() == Absorb(old(View()), event)
      ensures failed == if event.end.Some? && event.end.value.error != ""
                        then Some(ProcessError(event.end.value.error)) else None
    {
      if event.data.Some? {
        if event.data.value.stdout != "" {
          var decoded := Decode64(event.data.value.stdout);
          if decoded.Some? {
            stdout := stdout + decoded.value;
          }
        }
        if event.data.value.stderr != "" {
          var decoded := Decode64(event.data.value.stderr);
          if decoded.Some? {
            stderr := stderr + decoded.value;
          }
        }
      }
      failed := None;
      if event.end.Some? {
        exitCode := event.end.value.exitCode;
        if event.end.value.error != "" {
          failed := Some(ProcessError(event.end.value.error));
        }
      }
    }

    method ReadAll(json: Unmarshal) returns (o: Output, failed: Option<Failure>)
      modifies this, reader
      ensures
        var (es, stop) := Parse(old(reader.rest));
        (o, failed) == if old(done) then (old(View()), None) else Collect(es, stop, old(View()), json)
    {
      ghost var goal :=
        if done then (View(), None) else Collect(Parse(reader.rest).0, Parse(reader.rest).1, View(), json);
      while true
        invariant if done then goal == (View(), None)
                  else goal == Collect(Parse(reader.rest).0, Parse(reader.rest).1, View(), json)
        decreases |reader.rest|, !done
      {
        ghost var left := Parse(reader.rest);
        ghost var rest := Parse(Decode(reader.rest).1);
        var event := Read(json);
        if event == Err(None) {
          break;
        }
        if event.Err? {
          return Output([], [], -1), event.error;
        }
        assert left.0[1..] == rest.0 && left.1 == rest.1;
        if event.value.Some? {
          var failure := Take(event.value.value);
          if failure.Some? {
            return Output(stdout, stderr, exitCode), failure;
          }
        }
      }
      return Output(stdout, stderr, exitCode), None;
    }
  }

  // ------------------------------------------------ reassembly

  /** What one envelope is meant to contribute. */
  datatype Piece = Piece(stdout: seq<byte>, stderr: seq<byte>, exitCode: Option<int>)

  /** The text of a chunk stands for the bytes: their encoding, or none for a text that does not decode. */
  predicate Means(text: string, b: seq<byte>) {
    text == Encode64(b) || (Decode64(text).None? && b == [])
  }

  predicate CarriesData(data: Option<DataEvent>, p: Piece) {
    match data
    case None => p.stdout == [] && p.stderr == []
    case Some(d) => Means(d.stdout, p.stdout) && Means(d.stderr, p.stderr)
  }

  /** The envelope carries the piece: chunks base64-encoded (or left out when empty), the exit code in an end
      event without an error; start, keepalive and missing events carry the empty piece. */
  predicate Carries(e: Envelope, p: Piece, json: Unmarshal) {
    match json(e.payload)
    case None => false
    case Some(None) => p == Piece([], [], None)
    case Some(Some(event)) =>
      && CarriesData(event.data, p)
      && (match event.end
          case None => p.exitCode.None?
          case Some(end) => end.error == "" && p.exitCode == Some(end.exitCode))
  }

  /** The envelope carries the piece beside an error of the process. */
  predicate CarriesError(e: Envelope, p: Piece, message: string, json: Unmarshal) {
    && message != "" && p.exitCode.Some?
    && (match json(e.payload)
        case Some(Some(event)) =>
          CarriesData(event.data, p) && event.end == Some(EndEvent(p.exitCode.value, message))
        case _ => false)
  }

  function Reassembled(o: Output, ps: seq<Piece>): Output
    decreases |ps|
  {
    if ps == [] then o
    else Reassembled(Extended(o, ps[0]), ps[1..])
  }

  function AllStdout(ps: seq<Piece>): seq<byte> { if ps == [] then [] else ps[0].stdout + AllStdout(ps[1..]) }
  function AllStderr(ps: seq<Piece>): seq<byte> { if ps == [] then [] else ps[0].stderr + AllStderr(ps[1..]) }

  /** The last exit code, or `code` when there is none. */
  function LastCode(ps: seq<Piece>, code: int): int {
    if ps == [] then code
    else if ps[|ps| - 1].exitCode.Some? then ps[|ps| - 1].exitCode.value
    else LastCode(ps[..|ps| - 1], code)
  }

  lemma ChunkMeans(text: string, b: seq<byte>)
    requires Means(text, b)
    ensures Chunk(text) == b
  {
    RoundTrip64(b);
    if text == "" {
      assert Decode64("") == Some([]);
    }
  }

  function Extended(o: Output, p: Piece): Output {
    Output(o.stdout + p.stdout, o.stderr + p.stderr, if p.exitCode.Some? then p.exitCode.value else o.exitCode)
  }

  lemma AbsorbIs(o: Output, event: Event, p: Piece)
    requires CarriesData(event.data, p)
    requires p.exitCode == if event.end.Some? then Some(event.end.value.exitCode) else None
    ensures Absorb(o, event) == Extended(o, p)
  {
    if event.data.Some? {
      ChunkMeans(event.data.value.stdout, p.stdout);
      ChunkMeans(event.data.value.stderr, p.stderr);
    }
  }

  /** One envelope without an error. */
  lemma CollectOne(e: Envelope, p: Piece, more: seq<Envelope>, stop: ReadError, o: Output, json: Unmarshal)
    requires Carries(e, p, json)
    ensures Collect([e] + more, stop, o, json) ==
      if IsEndStream(e) then (Extended(o, p), None) else Collect(more, stop, Extended(o, p), json)
  {
    var event := json(e.payload).value;
    assert o.stdout + [] == o.stdout && o.stderr + [] == o.stderr;
    if event.Some? {
      AbsorbIs(o, event.value, p);
    }
    assert ([e] + more)[1..] == more;
  }

  /** Envelopes that do not end the stream, with more behind them. */
  lemma {:induction false} CollectOver(es: seq<Envelope>, ps: seq<Piece>, more: seq<Envelope>, stop: ReadError,
                                       o: Output, json: Unmarshal)
    requires |es| == |ps| && forall i :: 0 <= i < |es| ==> Carries(es[i], ps[i], json) && !IsEndStream(es[i])
    ensures Collect(es + more, stop, o, json) == Collect(more, stop, Reassembled(o, ps), json)
    decreases |es|
  {
    if es == [] {
      assert es + more == more;
    } else {
      var e, p, es', ps' := es[0], ps[0], es[1..], ps[1..];
      assert Carries(e, p, json) && !IsEndStream(e);
      CollectOver(es', ps', more, stop, Extended(o, p), json);
      CollectOne(e, p, es' + more, stop, o, json);
      ConsAppend(es, more);
    }
  }

  /** The envelopes end their stream, so that what follows is not read. */
  predicate Finished(es: seq<Envelope>) { es != [] && IsEndStream(es[|es| - 1]) }

  lemma CollectPieces(es: seq<Envelope>, ps: seq<Piece>, more: seq<Envelope>, stop: ReadError, o: Output,
                      json: Unmarshal)
    requires |es| == |ps| && forall i :: 0 <= i < |es| ==> Carries(es[i], ps[i], json)
    requires forall i :: 0 <= i < |es| - 1 ==> !IsEndStream(es[i])
    ensures Collect(es + more, stop, o, json) ==
      if Finished(es) then (Reassembled(o, ps), None) else Collect(more, stop, Reassembled(o, ps), json)
  {
    if Finished(es) {
      var k := |es| - 1;
      CollectFinished(es[..k], es[k], ps[..k], ps[k], more, stop, o, json);
      SplitLast(es, more);
      assert ps == ps[..k] + [ps[k]];
    } else {
      CollectOver(es, ps, more, stop, o, json);
    }
  }

  lemma SplitLast(es: seq<Envelope>, more: seq<Envelope>)
    requires es != []
    ensures es + more == es[..|es| - 1] + ([es[|es| - 1]] + more)
  {
  }

  lemma CollectFinished(es: seq<Envelope>, e: Envelope, ps: seq<Piece>, p: Piece, more: seq<Envelope>, stop: ReadError,
                        o: Output, json: Unmarshal)
    requires |es| == |ps| && forall i :: 0 <= i < |es| ==> Carries(es[i], ps[i], json) && !IsEndStream(es[i])
    requires Carries(e, p, json) && IsEndStream(e)
    ensures Collect(es + ([e] + more), stop, o, json) == (Reassembled(o, ps + [p]), None)
  {
    CollectOver(es, ps, [e] + more, stop, o, json);
    CollectOne(e, p, more, stop, Reassembled(o, ps), json);
    ReassembledSnoc(o, ps, p);
  }

  lemma {:induction false} ReassembledSnoc(o: Output, ps: seq<Piece>, p: Piece)
    ensures Reassembled(o, ps + [p]) == Extended(Reassembled(o, ps), p)
    decreases |ps|
  {
    if ps == [] {
      assert (ps + [p])[1..] == [];
    } else {
      assert (ps + [p])[1..] == ps[1..] + [p];
      ReassembledSnoc(Extended(o, ps[0]), ps[1..], p);
    }
  }

  lemma {:induction false} ReassembledIs(o: Output, ps: seq<Piece>)
    ensures Reassembled(o, ps) == Output(o.stdout + AllStdout(ps), o.stderr + AllStderr(ps), LastCode(ps, o.exitCode))
    decreases |ps|
  {
    if ps == [] {
      assert o.stdout + [] == o.stdout && o.stderr + [] == o.stderr;
    } else {
      var p := ps[0];
      ReassembledIs(Extended(o, p), ps[1..]);
      LastCodeCons(ps, o.exitCode);
      Assoc(o.stdout, p.stdout, AllStdout(ps[1..]));
      Assoc(o.stderr, p.stderr, AllStderr(ps[1..]));
    }
  }

  lemma {:induction false} LastCodeCons(ps: seq<Piece>, code: int)
    requires ps != []
    ensures LastCode(ps, code) == LastCode(ps[1..], if ps[0].exitCode.Some? then ps[0].exitCode.value else code)
    decreases |ps|
  {
    if |ps| == 1 {
      assert ps[..0] == [] && ps[1..] == [];
    } else if ps[|ps| - 1].exitCode.None? {
      LastCodeCons(ps[..|ps| - 1], code);
      assert ps[..|ps| - 1][1..] == ps[1..][..|ps| - 2];
    }
  }

  /** ReadAll on a fresh stream over `data`. */
  function Whole(data: seq<byte>, json: Unmarshal): (Output, Option<Failure>) {
    Collect(Parse(data).0, Parse(data).1, Output([], [], 0), json)
  }

  /** Reading the encodings of `es`, which carry `ps`, and then `tail`. */
  lemma WholeIs(es: seq<Envelope>, ps: seq<Piece>, tail: seq<byte>, json: Unmarshal)
    requires forall i :: 0 <= i < |es| ==> Fits(es[i])
    requires |es| == |ps| && forall i :: 0 <= i < |es| ==> Carries(es[i], ps[i], json)
    requires forall i :: 0 <= i < |es| - 1 ==> !IsEndStream(es[i])
    ensures
      var o := Output(AllStdout(ps), AllStderr(ps), LastCode(ps, 0));
      Whole(EncodeAll(es) + tail, json) ==
        if Finished(es) then (o, None) else Collect(Parse(tail).0, Parse(tail).1, o, json)
  {
    var o := Output([], [], 0);
    ParseOver(es, tail);
    CollectPieces(es, ps, Parse(tail).0, Parse(tail).1, o, json);
    ReassembledIs(o, ps);
    assert [] + AllStdout(ps) == AllStdout(ps) && [] + AllStderr(ps) == AllStderr(ps);
  }

  /** However the two outputs are cut into chunks and interleaved with other events, reading the whole stream
      gives the two original byte strings and the last exit code; nothing behind the end of the stream is
      read. */
  lemma OutputReassembled(es: seq<Envelope>, ps: seq<Piece>, tail: seq<byte>, json: Unmarshal)
    requires forall i :: 0 <= i < |es| ==> Fits(es[i])
    requires |es| == |ps| && forall i :: 0 <= i < |es| ==> Carries(es[i], ps[i], json)
    requires forall i :: 0 <= i < |es| - 1 ==> !IsEndStream(es[i])
    requires tail == [] || Finished(es)
    ensures Whole(EncodeAll(es) + tail, json) == (Output(AllStdout(ps), AllStderr(ps), LastCode(ps, 0)), None)
  {
    WholeIs(es, ps, tail, json);
    if !Finished(es) {
      assert Parse([]) == ([], EndOfStream);
    }
  }

  /** An error of the process ends the reading, whatever follows; beside it come the output and the exit code
      so far, those of the failing event included. */
  lemma ErrorWithOutput(es: seq<Envelope>, ps: seq<Piece>, e: Envelope, p: Piece, message: string, tail: seq<byte>,
                        json: Unmarshal)
    requires Fits(e) && forall i :: 0 <= i < |es| ==> Fits(es[i])
    requires |es| == |ps| && forall i :: 0 <= i < |es| ==> Carries(es[i], ps[i], json) && !IsEndStream(es[i])
    requires CarriesError(e, p, message, json)
    ensures Whole(EncodeAll(es) + (Encode(e) + tail), json) ==
      (Output(AllStdout(ps) + p.stdout, AllStderr(ps) + p.stderr, p.exitCode.value), Some(ProcessError(message)))
  {
    WholeIs(es, ps, Encode(e) + tail, json);
    FailsAt(e, p, message, tail, Output(AllStdout(ps), AllStderr(ps), LastCode(ps, 0)), json);
  }

  lemma FailsAt(e: Envelope, p: Piece, message: string, tail: seq<byte>, o: Output, json: Unmarshal)
    requires Fits(e) && CarriesError(e, p, message, json)
    ensures var (es, stop) := Parse(Encode(e) + tail);
      Collect(es, stop, o, json) == (Extended(o, p), Some(ProcessError(message)))
  {
    ParseStep(e, tail);
    AbsorbIs(o, json(e.payload).value.value, p);
  }

  /** An envelope whose JSON does not decode ends the reading, whatever follows; the output so far is lost. */
  lemma BadJsonLosesOutput(es: seq<Envelope>, ps: seq<Piece>, e: Envelope, tail: seq<byte>, json: Unmarshal)
    requires Fits(e) && forall i :: 0 <= i < |es| ==> Fits(es[i])
    requires |es| == |ps| && forall i :: 0 <= i < |es| ==> Carries(es[i], ps[i], json) && !IsEndStream(es[i])
    requires json(e.payload).None?
    ensures Whole(EncodeAll(es) + (Encode(e) + tail), json) == (Output([], [], -1), Some(BadJson))
  {
    WholeIs(es, ps, Encode(e) + tail, json);
    ParseStep(e, tail);
  }

  /** So does a header that announces more than 32 MiB. */
  lemma TooLargeLosesOutput(es: seq<Envelope>, ps: seq<Piece>, flags: byte, n: nat, tail: seq<byte>, json: Unmarshal)
    requires forall i :: 0 <= i < |es| ==> Fits(es[i])
    requires |es| == |ps| && forall i :: 0 <= i < |es| ==> Carries(es[i], ps[i], json) && !IsEndStream(es[i])
    requires 32 * 1024 * 1024 < n < TWO_32
    ensures Whole(EncodeAll(es) + ([flags] + Big32(n) + tail), json)
         == (Output([], [], -1), Some(BadEnvelope(TooLarge(n))))
  {
    WholeIs(es, ps, [flags] + Big32(n) + tail, json);
    OversizedParse(flags, n, tail);
  }

  lemma OversizedParse(flags: byte, n: nat, tail: seq<byte>)
    requires 32 * 1024 * 1024 < n < TWO_32
    ensures Parse([flags] + Big32(n) + tail) == ([], TooLarge(n))
  {
    var b := Big32(n);
    Read32OfBig32(n);
    HeaderBytes(flags, b[0], b[1], b[2], b[3], tail);
    assert [flags] + b + tail == [flags, b[0], b[1], b[2], b[3]] + tail;
  }

  /** The stream of OutputReassembled cut anywhere.  Reading it succeeds exactly when the cut is at an envelope
      boundary or right behind a header, and then returns the output and the exit code so far. */
  lemma CutOutput(es: seq<Envelope>, ps: seq<Piece>, cut: nat, json: Unmarshal)
    requires forall i :: 0 <= i < |es| ==> Fits(es[i])
    requires |es| == |ps| && forall i :: 0 <= i < |es| ==> Carries(es[i], ps[i], json)
    requires forall i :: 0 <= i < |es| - 1 ==> !IsEndStream(es[i])
    requires cut <= |EncodeAll(es)|
    ensures
      var n := WholeWithin(es, cut);
      n <= |es| &&
      Whole(EncodeAll(es)[..cut], json) ==
        if n == |es| || Remnant(es, cut) in {0, 5}
        then (Output(AllStdout(ps[..n]), AllStderr(ps[..n]), LastCode(ps[..n], 0)), None)
        else (Output([], [], -1), Some(BadEnvelope(Truncated)))
  {
    var n := WholeWithin(es, cut);
    CutParse(es, cut);
    CollectAll(es[..n], ps[..n], Parse(EncodeAll(es)[..cut]).1, json);
  }

  lemma CollectAll(es: seq<Envelope>, ps: seq<Piece>, stop: ReadError, json: Unmarshal)
    requires |es| == |ps| && forall i :: 0 <= i < |es| ==> Carries(es[i], ps[i], json)
    requires forall i :: 0 <= i < |es| - 1 ==> !IsEndStream(es[i])
    ensures Collect(es, stop, Output([], [], 0), json) ==
      if stop == EndOfStream || Finished(es) then (Output(AllStdout(ps), AllStderr(ps), LastCode(ps, 0)), None)
      else (Output([], [], -1), Some(BadEnvelope(stop)))
  {
    var o := Output([], [], 0);
    CollectPieces(es, ps, [], stop, o, json);
    assert es + [] == es;
    ReassembledIs(o, ps);
    assert [] + AllStdout(ps) == AllStdout(ps) && [] + AllStderr(ps) == AllStderr(ps);
  }
}
