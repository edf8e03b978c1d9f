/** What a host shows before it is told anything, and the caller's test of it. */
module Proofs {
  import opened Prelude
  import opened Terms
  import opened Heads
  import opened Freshness

  datatype HostProof = HostProof(head: SignedPolicyHead, words: seq<Fresh>)

  datatype Standing = Same | Newer(version: nat)

  /** The word that vouches for the proof's head; else the first candidate's reason. */
  function VouchingIn(proof: HostProof, host: NodeId, now: int): Result<Fresh, Error> {
    match FirstVouching(proof.words, proof.head, host, now)
    case Some(f) => Ok(f)
    case None =>
      if proof.words == [] then Err(Unvouched)
      else
        assert proof.words[0] in proof.words;
        Err(Vouches(proof.words[0], proof.head, host, now).error)
  }

  method FindVouching(proof: HostProof, host: NodeId, now: int) returns (r: Result<Fresh, Error>)
    ensures r == VouchingIn(proof, host, now)
  {
    var why := Unvouched;
    var test := VouchesFor(proof.head, host, now);
    for i := 0 to |proof.words|
      invariant First(proof.words, test) == First(proof.words[i..], test)
      invariant i > 0 ==> Vouches(proof.words[0], proof.head, host, now).Err?
      invariant why == if i == 0 then Unvouched else Vouches(proof.words[0], proof.head, host, now).error
    {
      assert proof.words[i..][1..] == proof.words[i + 1..];
      match Vouches(proof.words[i], proof.head, host, now) {
        case Ok(_) => return Ok(proof.words[i]);
        case Err(e) =>
          if why == Unvouched {
            why := e;
          }
      }
    }
    return Err(why);
  }

  /** Whether a caller holding `held`, dialing `host` at `now`, may speak to it. */
  function Check(proof: HostProof, root: NodeId, held: SignedPolicyHead, host: NodeId, now: int)
    : Result<Standing, Error>
  {
    var _ :- Require(|proof.words| <= MAX_FRESH_SET, BadFrame);
    var _ :- VerifyHead(proof.head, root);
    var _ :- CheckNotExpired(proof.head, now);
    var theirs, ours := proof.head.head.version, held.head.version;
    var _ :- Require(theirs >= ours, OlderHead(theirs, ours));
    var _ :- Require(theirs != ours || HeadHash(proof.head) == HeadHash(held), FreshMismatch);
    var _ :- VouchingIn(proof, host, now);
    Ok(if theirs > ours then Newer(theirs) else Same)
  }

  /**
    What a passing check tells the caller: the head is the root's and unexpired, it is the caller's own
    head or a newer one, and a listed directory, other than the host unless it is the only one,
    signed a word for exactly this head that is current now.
   */
  lemma CheckMeans(proof: HostProof, root: NodeId, held: SignedPolicyHead, host: NodeId, now: int)
    requires Check(proof, root, held, host, now).Ok?
    ensures proof.head.head.format == POLICY_V5 && SignHead(proof.head.head, root) == Ok(proof.head)
    ensures now <= proof.head.head.notAfter
    ensures proof.head == held || proof.head.head.version > held.head.version
    ensures Check(proof, root, held, host, now).value
         == if proof.head == held then Same else Newer(proof.head.head.version)
    ensures exists f :: f in proof.words && SignFresh(f.directory, proof.head, f.at, f.until) == Ok(f)
                        && f.directory in proof.head.head.directories && f.head == HeadHash(proof.head)
                        && f.sig == Signature(f.directory, FreshSignedBytes(f))
                        && f.at <= f.until <= f.at + proof.head.head.freshSecs
                        && f.at - CLOCK_SKEW_SECS <= now <= f.until
                        && (f.directory == host ==> proof.head.head.directories == [host])
  {
  }

  /** Why one word does not vouch: it is not of this head, or not current, or the host's own where others are listed. */
  lemma WordRefusal(f: Fresh, head: SignedPolicyHead, host: NodeId, now: int)
    ensures var (genuine, current) := (SignFresh(f.directory, head, f.at, f.until) == Ok(f),
                                       f.at - CLOCK_SKEW_SECS <= now <= f.until);
      && (Vouches(f, head, host, now).Ok? <==>
            genuine && current && (f.directory != host || head.head.directories == [host]))
      && (Vouches(f, head, host, now) == Err(FreshLapsed) <==> genuine && !current)
      && (Vouches(f, head, host, now) == Err(SelfVouched) <==>
            genuine && current && f.directory == host && head.head.directories != [host])
  {
    FreshVerifiesIffSigned(f, head);
  }

  /**
    Why a proof whose head the caller would take is refused: for having too many words, or none, or else for
    what is wrong with its first word; and an older head, or another of the caller's own version, as such.
   */
  lemma RefusalIs(proof: HostProof, root: NodeId, held: SignedPolicyHead, host: NodeId, now: int)
    requires Check(proof, root, held, host, now).Err?
    requires SignHead(proof.head.head, root) == Ok(proof.head) && proof.head.head.format == POLICY_V5
    ensures var (why, theirs, ours) :=
        (Check(proof, root, held, host, now).error, proof.head.head.version, held.head.version);
      if |proof.words| > MAX_FRESH_SET then why == BadFrame
      else if now > proof.head.head.notAfter then why == Expired
      else if theirs < ours then why == OlderHead(theirs, ours)
      else if theirs == ours && proof.head != held then why == FreshMismatch
      else if proof.words == [] then why == Unvouched
      else Vouches(proof.words[0], proof.head, host, now) == Err(why)
  {
    VerifiesIffSigned(proof.head, root);
  }

  // ---------------------------------------------------------------------------
  // A shown proof is as strong as the set it was built from
  // ---------------------------------------------------------------------------

  /** When a check passes, and by which word. */
  lemma CheckPasses(proof: HostProof, root: NodeId, held: SignedPolicyHead, host: NodeId, now: int)
    ensures Check(proof, root, held, host, now).Ok? <==>
      && |proof.words| <= MAX_FRESH_SET
      && VerifyHead(proof.head, root).Ok? && now <= proof.head.head.notAfter
      && (proof.head.head.version > held.head.version || proof.head == held)
      && FirstVouching(proof.words, proof.head, host, now).Some?
    ensures Check(proof, root, held, host, now).Ok? ==>
      VouchingIn(proof, host, now).value == FirstVouching(proof.words, proof.head, host, now).value
  {
  }

  /**
    The proof a host builds from its set passes exactly when the caller would take the head and the set
    itself holds a vouching word, and then by that same word.  The cap neither drops a word nor makes the
    proof a bad frame.
   */
  lemma ShownProofIsAsStrong(
    words: seq<Fresh>, head: SignedPolicyHead, root: NodeId, held: SignedPolicyHead, host: NodeId, now: int)
    requires OnePerSigner(words) && |words| <= MAX_FRESH_SET
    ensures var proof := HostProof(head, CurrentFor(words, head, now));
      && proof.words == Filter(words, CurrentAt(head, now))
      && (Check(proof, root, held, host, now).Ok? <==>
            && VerifyHead(head, root).Ok? && now <= head.head.notAfter
            && (head.head.version > held.head.version || head == held)
            && FirstVouching(words, head, host, now).Some?)
      && (Check(proof, root, held, host, now).Ok? ==>
            VouchingIn(proof, host, now).value == FirstVouching(words, head, host, now).value)
  {
    CheckPasses(HostProof(head, CurrentFor(words, head, now)), root, held, host, now);
    FirstOfFiltered(words, CurrentAt(head, now), VouchesFor(head, host, now));
  }

  /** A set written to disk and read back for a head shows the same proof of it. */
  lemma ReloadedSetShowsTheSame(words: seq<Fresh>, head: SignedPolicyHead, now: int)
    requires OnePerSigner(words) && |words| <= MAX_FRESH_SET
    ensures CurrentFor(Unverified(words, head), head, now) == CurrentFor(words, head, now)
  {
    OwnWordsReadBack(words, head);
    FilterWeaker(words, VerifiesFor(head), CurrentAt(head, now));
  }
}
