/** The inbox protocol's frames: one JSON object each, within limits. */
module InboxFrames {
  import opened Prelude
  import opened Framing
  import opened Mailboxes
  import opened Proofs

  const MAX_BATCH := 32
  const MAX_INBOX_FRAME := 4 * 1024 * 1024

  datatype InboxFrame =
    | Open
    | Proof(proof: HostProof)
    | Hello(idToken: Option<string>)
    | Fetch(waitMs: nat)
    | Deliver(messages: seq<PushMessage>)
    | Ack(ids: seq<PushId>)
    | Denied(reason: string)

  /** The limits the types can't say on their own. */
  function CheckInbox(frame: InboxFrame): Result<(), Error> {
    match frame
    case Deliver(messages) => Require(|messages| <= MAX_BATCH, InvalidPush)
    case Ack(ids) => Require(|ids| <= MAX_BATCH, InvalidPush)
    case _ => Ok(())
  }

  function EncodeInbox(json: Codec<InboxFrame>, frame: InboxFrame): Result<seq<byte>, Error> {
    var _ :- CheckInbox(frame);
    var body :- Encoded(json.encode(frame));
    var _ :- Require(|body| <= MAX_INBOX_FRAME, InvalidPush);
    Prefixed(body)
  }

  /** The announced length, refused over the limit before anything is allocated for it. */
  function InboxLength(buf: seq<byte>): Result<Option<nat>, Error> {
    match PrefixLen(buf)
    case None => Ok(None)
    case Some(len) => if len > MAX_INBOX_FRAME then Err(InvalidPush) else Ok(Some(len))
  }

  function DecodeInbox(json: Codec<InboxFrame>, buf: seq<byte>): Result<Option<(InboxFrame, nat)>, Error> {
    var _ :- InboxLength(buf);
    match SplitFrame(buf)
    case None => Ok(None)
    case Some((body, end)) =>
      var frame :- Parsed(json.decode(body));
      var _ :- CheckInbox(frame);
      Ok(Some((frame, end)))
  }

  function InboxEncoder(json: Codec<InboxFrame>): InboxFrame -> Result<seq<byte>, Error> {
    (frame: InboxFrame) => EncodeInbox(json, frame)
  }

  function InboxDecoder(json: Codec<InboxFrame>): seq<byte> -> Result<Option<(InboxFrame, nat)>, Error> {
    (buf: seq<byte>) => DecodeInbox(json, buf)
  }

  /** What encoding accepts, decoding accepts, and in part it waits for the rest. */
  lemma InboxDelimited(json: Codec<InboxFrame>, frame: InboxFrame)
    requires json.Lawful() && EncodeInbox(json, frame).Ok?
    ensures Delimited(InboxDecoder(json), frame, EncodeInbox(json, frame).value)
  {
    var body := json.encode(frame).value;
    var bytes := EncodeInbox(json, frame).value;
    forall tail ensures DecodeInbox(json, bytes + tail) == Ok(Some((frame, |bytes|))) {
      SplitsWhole(body, tail);
    }
    forall k | 0 <= k < |bytes| ensures DecodeInbox(json, bytes[..k]) == Ok(None) {
      PartIsNotYet(body, k);
    }
  }

  lemma InboxReads(json: Codec<InboxFrame>, frames: seq<InboxFrame>, chunks: seq<seq<byte>>)
    requires json.Lawful() && Encodable(InboxEncoder(json), frames)
    requires Joined(chunks) == Stream(InboxEncoder(json), frames)
    ensures ReadChunks(InboxDecoder(json), [], chunks) == Ok((frames, []))
  {
    forall frame | InboxEncoder(json)(frame).Ok?
      ensures Delimited(InboxDecoder(json), frame, InboxEncoder(json)(frame).value)
    {
      InboxDelimited(json, frame);
    }
    EveryCutReads(InboxEncoder(json), InboxDecoder(json), frames, chunks);
  }

  /** What encodes: a frame the JSON has a text for, of at most so many messages or ids and so many bytes. */
  lemma EncodesIff(json: Codec<InboxFrame>, frame: InboxFrame)
    ensures EncodeInbox(json, frame).Ok? <==>
      && (frame.Deliver? ==> |frame.messages| <= MAX_BATCH) && (frame.Ack? ==> |frame.ids| <= MAX_BATCH)
      && json.encode(frame).Some? && |json.encode(frame).value| <= MAX_INBOX_FRAME
  {
  }

  /** A length over the limit is refused on its four bytes alone, whatever follows. */
  lemma TooLongIsRefusedAtOnce(json: Codec<InboxFrame>, buf: seq<byte>)
    requires 4 <= |buf| && FromBeBytes(buf[..4]) > MAX_INBOX_FRAME
    ensures DecodeInbox(json, buf[..4]) == Err(InvalidPush)
    ensures DecodeInbox(json, buf) == Err(InvalidPush)
  {
  }

  /** Whatever decodes is within every limit encoding enforces. */
  lemma DecodedIsWithinLimits(json: Codec<InboxFrame>, buf: seq<byte>)
    requires DecodeInbox(json, buf).Ok? && DecodeInbox(json, buf).value.Some?
    ensures var (frame, used) := DecodeInbox(json, buf).value.value;
      && 4 <= used <= |buf| && used - 4 <= MAX_INBOX_FRAME
      && (frame.Deliver? ==> |frame.messages| <= MAX_BATCH) && (frame.Ack? ==> |frame.ids| <= MAX_BATCH)
  {
  }
}
