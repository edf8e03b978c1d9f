/** The session's frames: a tag and a body each. */
module Frames {
  import opened Prelude
  import opened Framing
  import opened Proofs

  type i32 = x: int | -0x8000_0000 <= x < 0x8000_0000

  /** The parts of the session's vocabulary this model does not look inside. */
  datatype Codecs<!I(!new), !H(!new), !A(!new)> = Codecs(
    text: Codec<string>, invocation: Codec<I>, hello: Codec<H>, ack: Codec<A>, proof: Codec<HostProof>)
  {
    /** UTF-8 encodes every string and decodes only what it encodes. */
    ghost predicate Lawful() {
      && text.Lawful() && invocation.Lawful() && hello.Lawful() && ack.Lawful() && proof.Lawful()
      && (forall s :: text.encode(s).Some?)
      && (forall b :: text.decode(b).Some? ==> text.encode(text.decode(b).value) == Some(b))
    }
  }

  datatype Frame<I, H, A> =
    | Stdin(chunk: seq<byte>)
    | Stdout(chunk: seq<byte>)
    | Stderr(chunk: seq<byte>)
    | Exit(code: i32)
    | Denied(reason: string)
    | Invoke(invocation: I)
    | Hello(hello: H)
    | HelloAck(ack: A)
    | Open
    | Proof(proof: HostProof)

  const TAG_STDIN: byte := 1
  const TAG_STDOUT: byte := 2
  const TAG_STDERR: byte := 3
  const TAG_EXIT: byte := 4
  const TAG_DENIED: byte := 6
  const TAG_INVOKE: byte := 7
  const TAG_HELLO: byte := 10
  const TAG_HELLO_ACK: byte := 11
  const TAG_OPEN: byte := 12
  const TAG_PROOF: byte := 13

  /** Two's complement. */
  function ExitBytes(code: i32): seq<byte> {
    BeBytes(if code < 0 then code + U32_LIMIT else code)
  }

  function ExitCode(b: seq<byte>): i32
    requires |b| == 4
  {
    var n := FromBeBytes(b);
    if n >= 0x8000_0000 then n - U32_LIMIT else n
  }

  function TagOf<I, H, A>(frame: Frame<I, H, A>): byte {
    match frame
    case Stdin(_) => TAG_STDIN
    case Stdout(_) => TAG_STDOUT
    case Stderr(_) => TAG_STDERR
    case Exit(_) => TAG_EXIT
    case Denied(_) => TAG_DENIED
    case Invoke(_) => TAG_INVOKE
    case Hello(_) => TAG_HELLO
    case HelloAck(_) => TAG_HELLO_ACK
    case Open => TAG_OPEN
    case Proof(_) => TAG_PROOF
  }

  /** What follows a frame's tag. */
  function BodyOf<I(!new), H(!new), A(!new)>(c: Codecs<I, H, A>, frame: Frame<I, H, A>): Result<seq<byte>, Error> {
    match frame
    case Stdin(chunk) => Ok(chunk)
    case Stdout(chunk) => Ok(chunk)
    case Stderr(chunk) => Ok(chunk)
    case Exit(code) => Ok(ExitBytes(code))
    case Denied(reason) => Encoded(c.text.encode(reason))
    case Invoke(invocation) => Encoded(c.invocation.encode(invocation))
    case Hello(hello) => Encoded(c.hello.encode(hello))
    case HelloAck(ack) => Encoded(c.ack.encode(ack))
    case Open => Ok([])
    case Proof(proof) => Encoded(c.proof.encode(proof))
  }

  function EncodeFrame<I(!new), H(!new), A(!new)>(c: Codecs<I, H, A>, frame: Frame<I, H, A>): Result<seq<byte>, Error> {
    var body :- BodyOf(c, frame);
    Prefixed([TagOf(frame)] + body)
  }

  /** The encoder as it runs: the payload grows tag first, then body. */
  method WriteFrame<I(!new), H(!new), A(!new)>(c: Codecs<I, H, A>, frame: Frame<I, H, A>)
    returns (r: Result<seq<byte>, Error>)
    ensures r == EncodeFrame(c, frame)
  {
    var payload: seq<byte> := [];
    match frame {
      case Stdin(chunk) => payload := payload + [TAG_STDIN]; payload := payload + chunk;
      case Stdout(chunk) => payload := payload + [TAG_STDOUT]; payload := payload + chunk;
      case Stderr(chunk) => payload := payload + [TAG_STDERR]; payload := payload + chunk;
      case Exit(code) => payload := payload + [TAG_EXIT]; payload := payload + ExitBytes(code);
      case Denied(reason) =>
        payload := payload + [TAG_DENIED];
        var body :- Encoded(c.text.encode(reason));
        payload := payload + body;
      case Invoke(invocation) =>
        payload := payload + [TAG_INVOKE];
        var body :- Encoded(c.invocation.encode(invocation));
        payload := payload + body;
      case Hello(hello) =>
        payload := payload + [TAG_HELLO];
        var body :- Encoded(c.hello.encode(hello));
        payload := payload + body;
      case HelloAck(ack) =>
        payload := payload + [TAG_HELLO_ACK];
        var body :- Encoded(c.ack.encode(ack));
        payload := payload + body;
      case Open => payload := payload + [TAG_OPEN];
      case Proof(proof) =>
        payload := payload + [TAG_PROOF];
        var body :- Encoded(c.proof.encode(proof));
        payload := payload + body;
    }
    assert payload == [TagOf(frame)] + BodyOf(c, frame).value;
    r := Prefixed(payload);
  }

  function DecodeBody<I(!new), H(!new), A(!new)>(c: Codecs<I, H, A>, tag: byte, body: seq<byte>)
    : Result<Frame<I, H, A>, Error>
  {
    if tag == TAG_STDIN then Ok(Stdin(body))
    else if tag == TAG_STDOUT then Ok(Stdout(body))
    else if tag == TAG_STDERR then Ok(Stderr(body))
    else if tag == TAG_EXIT then if |body| == 4 then Ok(Exit(ExitCode(body))) else Err(BadFrame)
    else if tag == TAG_DENIED then
      var reason := c.text.decode(body);
      if reason.Some? then Ok(Denied(reason.value)) else Err(BadFrame)
    else if tag == TAG_INVOKE then
      var invocation :- Parsed(c.invocation.decode(body));
      Ok(Invoke(invocation))
    else if tag == TAG_HELLO then
      var hello :- Parsed(c.hello.decode(body));
      Ok(Hello(hello))
    else if tag == TAG_HELLO_ACK then
      var ack :- Parsed(c.ack.decode(body));
      Ok(HelloAck(ack))
    else if tag == TAG_OPEN && body == [] then Ok(Open)
    else if tag == TAG_PROOF then
      var proof :- Parsed(c.proof.decode(body));
      Ok(Proof(proof))
    else Err(BadFrame)
  }

  /** The first frame in `buf`, and the bytes it used; `None` until all of it is there. */
  function DecodeFrame<I(!new), H(!new), A(!new)>(c: Codecs<I, H, A>, buf: seq<byte>)
    : Result<Option<(Frame<I, H, A>, nat)>, Error>
  {
    match SplitFrame(buf)
    case None => Ok(None)
    case Some((payload, end)) =>
      var _ :- Require(payload != [], BadFrame);
      var frame :- DecodeBody(c, payload[0], payload[1..]);
      Ok(Some((frame, end)))
  }

  lemma ExitExact(b: seq<byte>)
    requires |b| == 4
    ensures ExitBytes(ExitCode(b)) == b
  {
  }

  /** An exit code is written as the number it is modulo two to the 32, the first byte weighing most. */
  lemma ExitWeighs(code: i32)
    ensures var b := ExitBytes(code);
      |b| == 4
      && b[0] as int * 16_777_216 + b[1] as int * 65_536 + b[2] as int * 256 + b[3] as int
         == if code < 0 then code as int + 4_294_967_296 else code as int
  {
  }

  lemma BodyRoundTrip<I(!new), H(!new), A(!new)>(c: Codecs<I, H, A>, frame: Frame<I, H, A>)
    requires c.Lawful() && BodyOf(c, frame).Ok?
    ensures DecodeBody(c, TagOf(frame), BodyOf(c, frame).value) == Ok(frame)
  {
  }

  function Encoder<I(!new), H(!new), A(!new)>(c: Codecs<I, H, A>): Frame<I, H, A> -> Result<seq<byte>, Error> {
    (frame: Frame<I, H, A>) => EncodeFrame(c, frame)
  }

  function Decoder<I(!new), H(!new), A(!new)>(c: Codecs<I, H, A>)
    : seq<byte> -> Result<Option<(Frame<I, H, A>, nat)>, Error>
  {
    (buf: seq<byte>) => DecodeFrame(c, buf)
  }

  /** An encoded frame decodes to itself whatever follows it, and every part of it is "not yet". */
  lemma FrameDelimited<I(!new), H(!new), A(!new)>(c: Codecs<I, H, A>, frame: Frame<I, H, A>)
    requires c.Lawful() && EncodeFrame(c, frame).Ok?
    ensures Delimited(Decoder(c), frame, EncodeFrame(c, frame).value)
  {
    var payload := [TagOf(frame)] + BodyOf(c, frame).value;
    var bytes := EncodeFrame(c, frame).value;
    BodyRoundTrip(c, frame);
    assert payload[1..] == BodyOf(c, frame).value;
    forall tail ensures DecodeFrame(c, bytes + tail) == Ok(Some((frame, |bytes|))) {
      SplitsWhole(payload, tail);
    }
    forall k | 0 <= k < |bytes| ensures DecodeFrame(c, bytes[..k]) == Ok(None) {
      PartIsNotYet(payload, k);
    }
  }

  /** However the session's bytes are cut, the reader gives exactly the frames that were written. */
  lemma SessionReads<I(!new), H(!new), A(!new)>(
    c: Codecs<I, H, A>, frames: seq<Frame<I, H, A>>, chunks: seq<seq<byte>>)
    requires c.Lawful() && Encodable(Encoder(c), frames)
    requires Joined(chunks) == Stream(Encoder(c), frames)
    ensures ReadChunks(Decoder(c), [], chunks) == Ok((frames, []))
  {
    forall frame | Encoder(c)(frame).Ok? ensures Delimited(Decoder(c), frame, Encoder(c)(frame).value) {
      FrameDelimited(c, frame);
    }
    EveryCutReads(Encoder(c), Decoder(c), frames, chunks);
  }

  /** Frames without JSON are read from one byte string only: encoding again gives back what was read. */
  lemma PlainFramesAreExact<I(!new), H(!new), A(!new)>(c: Codecs<I, H, A>, buf: seq<byte>)
    requires c.Lawful()
    requires DecodeFrame(c, buf).Ok? && DecodeFrame(c, buf).value.Some?
    requires var frame := DecodeFrame(c, buf).value.value.0;
      !frame.Invoke? && !frame.Hello? && !frame.HelloAck? && !frame.Proof?
    ensures var (frame, used) := DecodeFrame(c, buf).value.value;
      EncodeFrame(c, frame) == Ok(buf[..used])
  {
    var (payload, end) := SplitFrame(buf).value;
    SplitIsExact(buf);
    var frame := DecodeFrame(c, buf).value.value.0;
    assert payload == [payload[0]] + payload[1..];
    if frame.Exit? {
      ExitExact(payload[1..]);
    }
    assert payload[0] == TagOf(frame) && BodyOf(c, frame) == Ok(payload[1..]);
  }
}
