/** Length-prefixed frames on a byte stream, and reading them however the bytes arrive. */
module Framing {
  import opened Prelude

  type byte = b: int | 0 <= b < 256

  /** Canonical JSON or UTF-8, given by its law: an encoding that may refuse a value, and its decoding. */
  datatype Codec<!T(!new)> = Codec(encode: T -> Option<seq<byte>>, decode: seq<byte> -> Option<T>) {
    ghost predicate Lawful() {
      forall x :: encode(x).Some? ==> decode(encode(x).value) == Some(x)
    }
  }

  function Encoded(body: Option<seq<byte>>): Result<seq<byte>, Error> {
    if body.Some? then Ok(body.value) else Err(Encode)
  }

  function Parsed<T>(x: Option<T>): Result<T, Error> {
    if x.Some? then Ok(x.value) else Err(Decode)
  }

  const U32_LIMIT := 0x1_0000_0000

  // ---------------------------------------------------------------------------
  // Four big-endian bytes
  // ---------------------------------------------------------------------------

  function BeBytes(n: nat): (r: seq<byte>)
    requires n < U32_LIMIT
    ensures |r| == 4
  {
    var high := n / 0x100;
    var higher := high / 0x100;
    [higher / 0x100, higher % 0x100, high % 0x100, n % 0x100]
  }

  function FromBeBytes(b: seq<byte>): (n: nat)
    requires |b| == 4
    ensures n < U32_LIMIT
  {
    var b0: int, b1: int, b2: int, b3: int := b[0], b[1], b[2], b[3];
    ((b0 * 0x100 + b1) * 0x100 + b2) * 0x100 + b3
  }

  /** One byte is taken off a number as it was put on. */
  lemma OneByte(high: nat, low: byte)
    ensures (high * 0x100 + low) / 0x100 == high && (high * 0x100 + low) % 0x100 == low
  {
  }

  lemma BeExact(b: seq<byte>)
    requires |b| == 4
    ensures BeBytes(FromBeBytes(b)) == b
  {
    var b0: nat, b1: nat, b2: nat := b[0], b[1], b[2];
    OneByte(b0, b[1]);
    OneByte(b0 * 0x100 + b1, b[2]);
    OneByte((b0 * 0x100 + b1) * 0x100 + b2, b[3]);
  }

  // ---------------------------------------------------------------------------
  // Prefix and body
  // ---------------------------------------------------------------------------

  function Prefixed(body: seq<byte>): Result<seq<byte>, Error> {
    if |body| < U32_LIMIT then Ok(BeBytes(|body|) + body) else Err(BadFrame)
  }

  /** The body length the prefix announces, once its four bytes are there. */
  function PrefixLen(buf: seq<byte>): Option<nat> {
    if |buf| < 4 then None else Some(FromBeBytes(buf[..4]))
  }

  /** The body of the first whole frame, and how many bytes the frame used. */
  function SplitFrame(buf: seq<byte>): (r: Option<(seq<byte>, nat)>)
    ensures r.Some? ==> 4 <= r.value.1 <= |buf| && r.value.0 == buf[4..r.value.1]
  {
    var len := PrefixLen(buf);
    if len.None? || 4 + len.value > |buf| then None
    else Some((buf[4..4 + len.value], 4 + len.value))
  }

  /** The four bytes in front of a body weigh its length, the first byte most. */
  lemma PrefixWeighs(body: seq<byte>)
    requires |body| < U32_LIMIT
    ensures var b := Prefixed(body).value;
      |b| == 4 + |body| && b[4..] == body
      && b[0] as int * 16_777_216 + b[1] as int * 65_536 + b[2] as int * 256 + b[3] as int == |body|
  {
  }

  /** A whole frame is split off whatever follows it. */
  lemma SplitsWhole(body: seq<byte>, tail: seq<byte>)
    requires |body| < U32_LIMIT
    ensures PrefixLen(Prefixed(body).value + tail) == Some(|body|)
    ensures SplitFrame(Prefixed(body).value + tail) == Some((body, 4 + |body|))
  {
  }

  /** Part of a frame is never split. */
  lemma PartIsNotYet(body: seq<byte>, k: nat)
    requires |body| < U32_LIMIT && k < 4 + |body|
    ensures PrefixLen(Prefixed(body).value[..k]) == if k < 4 then None else Some(|body|)
    ensures SplitFrame(Prefixed(body).value[..k]) == None
  {
  }

  /** What is split off is exactly one frame's bytes. */
  lemma SplitIsExact(buf: seq<byte>)
    requires SplitFrame(buf).Some?
    ensures var (body, end) := SplitFrame(buf).value; Prefixed(body) == Ok(buf[..end])
  {
    var (body, end) := SplitFrame(buf).value;
    BeExact(buf[..4]);
    assert buf[..end] == buf[..4] + body;
  }

  // ---------------------------------------------------------------------------
  // Streams of frames
  // ---------------------------------------------------------------------------

  type Encoder<!F> = F -> Result<seq<byte>, Error>
  type Decoder<!F> = seq<byte> -> Result<Option<(F, nat)>, Error>

  /** Whether `b`, the encoding of `f`, delimits itself: whole it decodes whatever follows, in part it waits. */
  ghost predicate Delimited<F(!new)>(dec: Decoder<F>, f: F, b: seq<byte>) {
    && b != []
    && (forall tail :: dec(b + tail) == Ok(Some((f, |b|))))
    && (forall k :: 0 <= k < |b| ==> dec(b[..k]) == Ok(None))
  }

  ghost predicate SelfDelimiting<F(!new)>(enc: Encoder<F>, dec: Decoder<F>) {
    dec([]) == Ok(None) && forall f :: enc(f).Ok? ==> Delimited(dec, f, enc(f).value)
  }

  ghost predicate Encodable<F(!new)>(enc: Encoder<F>, frames: seq<F>) {
    forall f :: f in frames ==> enc(f).Ok?
  }

  /** The frames' encodings, end to end. */
  function Stream<F(!new)>(enc: Encoder<F>, frames: seq<F>): seq<byte>
    requires Encodable(enc, frames)
  {
    if frames == [] then [] else enc(frames[0]).value + Stream(enc, frames[1..])
  }

  type Output<F> = Result<(seq<F>, seq<byte>), Error>

  function Prepend<F>(frames: seq<F>, r: Output<F>): Output<F> {
    match r
    case Ok((more, buf)) => Ok((frames + more, buf))
    case Err(e) => Err(e)
  }

  lemma PrependTwice<F>(a: seq<F>, b: seq<F>, r: Output<F>)
    ensures Prepend(a, Prepend(b, r)) == Prepend(a + b, r)
    ensures Prepend([], r) == r
  {
    if r.Ok? {
      assert a + (b + r.value.0) == (a + b) + r.value.0;
      assert [] + r.value.0 == r.value.0;
    }
  }

  /** Whether a decoding took a whole frame off the front of `buf`. */
  predicate TookOne<F>(buf: seq<byte>, first: Option<(F, nat)>) {
    first.Some? && 0 < first.value.1 <= |buf|
  }

  /** Decode for as long as a whole frame is there: what came out, and the bytes left over. */
  function Drain<F(!new)>(dec: Decoder<F>, buf: seq<byte>): Output<F>
    decreases |buf|
  {
    var first :- dec(buf);
    if TookOne(buf, first) then Prepend([first.value.0], Drain(dec, buf[first.value.1..]))
    else Ok(([], buf))
  }

  /** Append each chunk as it comes and drain. */
  function ReadChunks<F(!new)>(dec: Decoder<F>, buf: seq<byte>, chunks: seq<seq<byte>>): Output<F>
    decreases |chunks|
  {
    if chunks == [] then Ok(([], buf))
    else
      var now :- Drain(dec, buf + chunks[0]);
      Prepend(now.0, ReadChunks(dec, now.1, chunks[1..]))
  }

  function Joined(chunks: seq<seq<byte>>): seq<byte> {
    if chunks == [] then [] else chunks[0] + Joined(chunks[1..])
  }

  method DrainBuffer<F(!new)>(dec: Decoder<F>, received: seq<byte>) returns (r: Output<F>)
    ensures r == Drain(dec, received)
  {
    var frames: seq<F>, buf := [], received;
    PrependTwice([], [], Drain(dec, buf));
    while true
      invariant Drain(dec, received) == Prepend(frames, Drain(dec, buf))
      decreases |buf|
    {
      var first :- dec(buf);
      if !TookOne(buf, first) {
        assert frames + [] == frames;
        return Ok((frames, buf));
      }
      PrependTwice(frames, [first.value.0], Drain(dec, buf[first.value.1..]));
      frames := frames + [first.value.0];
      buf := buf[first.value.1..];
    }
  }

  /** The reader as a loop over a growing buffer. */
  method Read<F(!new)>(dec: Decoder<F>, chunks: seq<seq<byte>>) returns (r: Output<F>)
    ensures r == ReadChunks(dec, [], chunks)
  {
    var frames: seq<F>, buf: seq<byte> := [], [];
    PrependTwice([], [], ReadChunks(dec, [], chunks));
    assert chunks[0..] == chunks;
    for i := 0 to |chunks|
      invariant ReadChunks(dec, [], chunks) == Prepend(frames, ReadChunks(dec, buf, chunks[i..]))
    {
      assert chunks[i..][1..] == chunks[i + 1..];
      var now :- DrainBuffer(dec, buf + chunks[i]);
      PrependTwice(frames, now.0, ReadChunks(dec, now.1, chunks[i + 1..]));
      frames := frames + now.0;
      buf := now.1;
    }
    assert frames + [] == frames;
    return Ok((frames, buf));
  }

  /** Where a stream that starts with `b` was cut, before the end of `b` or after it. */
  lemma CutStream(b: seq<byte>, rest: seq<byte>, buf: seq<byte>, more: seq<byte>)
    requires b + rest == buf + more
    ensures |buf| < |b| ==> buf == b[..|buf|]
    ensures |buf| >= |b| ==> buf == b + buf[|b|..] && buf[|b|..] + more == rest
  {
    if |buf| < |b| {
      assert buf == (buf + more)[..|buf|] && b[..|buf|] == (b + rest)[..|buf|];
    } else {
      assert b == (b + rest)[..|b|] && buf[..|b|] == (buf + more)[..|b|];
      assert rest == (b + rest)[|b|..] && buf[|b|..] + more == (buf + more)[|b|..];
    }
  }

  /** Draining the start of a stream gives its whole frames, and keeps what there is of the next. */
  lemma {:induction false} DrainsWholeFrames<F(!new)>(
    enc: Encoder<F>, dec: Decoder<F>, frames: seq<F>, buf: seq<byte>, more: seq<byte>) returns (k: nat)
    requires SelfDelimiting(enc, dec) && Encodable(enc, frames)
    requires buf + more == Stream(enc, frames)
    ensures k <= |frames| && Encodable(enc, frames[k..])
    ensures Drain(dec, buf).Ok? && Drain(dec, buf).value.0 == frames[..k]
    ensures Drain(dec, buf).value.1 + more == Stream(enc, frames[k..])
    ensures Waiting(enc, frames[k..], Drain(dec, buf).value.1)
    decreases |frames|
  {
    k := 0;
    if frames == [] {
      assert buf == [];
    } else {
      var f := frames[0];
      assert f in frames && frames == [f] + frames[1..];
      var b, rest := enc(f).value, Stream(enc, frames[1..]);
      assert Delimited(dec, f, b) && b + rest == buf + more;
      CutStream(b, rest, buf, more);
      if |buf| >= |b| {
        var left := buf[|b|..];
        k := DrainsWholeFrames(enc, dec, frames[1..], left, more);
        assert frames[1..][k..] == frames[k + 1..];
        assert [f] + frames[1..][..k] == frames[..k + 1];
        k := k + 1;
      }
    }
  }

  /** Less than the first of the frames still to come. */
  ghost predicate Waiting<F(!new)>(enc: Encoder<F>, frames: seq<F>, buf: seq<byte>)
    requires Encodable(enc, frames)
  {
    if frames == [] then buf == [] else frames[0] in frames && |buf| < |enc(frames[0]).value|
  }

  lemma StreamStarts<F(!new)>(enc: Encoder<F>, frames: seq<F>)
    requires Encodable(enc, frames)
    ensures frames == [] ==> Stream(enc, frames) == []
    ensures frames != [] ==> frames[0] in frames && enc(frames[0]).value <= Stream(enc, frames)
  {
  }

  /** Any way of cutting a stream into chunks reads back as exactly its frames, nothing left over. */
  lemma {:induction false} AnyChunksRead<F(!new)>(
    enc: Encoder<F>, dec: Decoder<F>, frames: seq<F>, buf: seq<byte>, chunks: seq<seq<byte>>)
    requires SelfDelimiting(enc, dec) && Encodable(enc, frames)
    requires buf + Joined(chunks) == Stream(enc, frames)
    requires Waiting(enc, frames, buf)
    ensures ReadChunks(dec, buf, chunks) == Ok((frames, []))
    decreases |chunks|
  {
    StreamStarts(enc, frames);
    if chunks != [] {
      var more := Joined(chunks[1..]);
      assert (buf + chunks[0]) + more == buf + Joined(chunks);
      var k := DrainsWholeFrames(enc, dec, frames, buf + chunks[0], more);
      var rest := Drain(dec, buf + chunks[0]).value.1;
      AnyChunksRead(enc, dec, frames[k..], rest, chunks[1..]);
      assert frames[..k] + frames[k..] == frames;
    }
  }

  /** Every way of cutting the concatenated encodings of encodable frames reads back as those frames. */
  lemma EveryCutReads<F(!new)>(enc: Encoder<F>, dec: Decoder<F>, frames: seq<F>, chunks: seq<seq<byte>>)
    requires SelfDelimiting(enc, dec) && Encodable(enc, frames)
    requires Joined(chunks) == Stream(enc, frames)
    ensures ReadChunks(dec, [], chunks) == Ok((frames, []))
  {
    assert [] + Joined(chunks) == Stream(enc, frames);
    assert frames != [] ==> frames[0] in frames && Delimited(dec, frames[0], enc(frames[0]).value);
    AnyChunksRead(enc, dec, frames, [], chunks);
  }
}
