/**
  The freshness protocol as a transition system.

  The root signs heads, honest directories take newer heads and vouch for the one they hold, and the
  caller's clock moves on.  Everything else is the adversary's: at any moment it may show a caller any
  signature ever made, and any made with a key that is neither the root's nor an honest directory's.
  Directories' clocks may lag without limit, and run ahead of the caller's by at most `ahead`.
 */
module Protocol {
  import opened Prelude
  import opened Terms
  import opened Heads
  import opened Freshness
  import opened Proofs

  datatype Network = Network(root: NodeId, honest: set<NodeId>, ahead: nat)

  /** The caller's clock, every signature the root and the honest directories made, and what those hold. */
  datatype World = World(now: int, issued: set<Signature>, holds: map<NodeId, SignedPolicyHead>)

  datatype Step =
    | RootSigns(content: PolicyHead)
    | Adopt(directory: NodeId, head: SignedPolicyHead, clock: int)
    | Beat(directory: NodeId, clock: int)
    | Wait(secs: nat)

  /** Whether the adversary can produce `sig`. */
  predicate Showable(net: Network, w: World, sig: Signature) {
    sig.Forged? || sig in w.issued || (sig.key != net.root && sig.key !in net.honest)
  }

  predicate ShowableProof(net: Network, w: World, proof: HostProof) {
    Showable(net, w, proof.head.sig) && forall f :: f in proof.words ==> Showable(net, w, f.sig)
  }

  /** The word a directory signs for the head it holds, good for the settings' word life, which is the head's. */
  function BeatWord(w: World, directory: NodeId, clock: int): Result<Fresh, Error>
    requires directory in w.holds
  {
    var held := w.holds[directory];
    var _ :- CheckNotExpired(held, clock);
    SignFresh(directory, held, clock, clock + held.head.freshSecs)
  }

  predicate Enabled(net: Network, w: World, step: Step) {
    match step
    case RootSigns(content) => SignHead(content, net.root).Ok?
    case Adopt(directory, head, clock) =>
      && directory in net.honest
      && Showable(net, w, head.sig)
      && VerifyHead(head, net.root).Ok?
      && CheckNotExpired(head, clock).Ok?
      && (directory in w.holds ==> IsNewerThan(head, w.holds[directory]))
    case Beat(directory, clock) =>
      && directory in net.honest && directory in w.holds
      && clock <= w.now + net.ahead
      && BeatWord(w, directory, clock).Ok?
    case Wait(_) => true
  }

  function After(net: Network, w: World, step: Step): World
    requires Enabled(net, w, step)
  {
    match step
    case RootSigns(content) => w.(issued := w.issued + {SignHead(content, net.root).value.sig})
    case Adopt(directory, head, _) => w.(holds := w.holds[directory := head])
    case Beat(directory, clock) => w.(issued := w.issued + {BeatWord(w, directory, clock).value.sig})
    case Wait(secs) => w.(now := w.now + secs)
  }

  ghost predicate Next(net: Network, a: World, b: World) {
    exists step :: Enabled(net, a, step) && b == After(net, a, step)
  }

  ghost predicate Run(net: Network, worlds: seq<World>) {
    && worlds != []
    && worlds[0].issued == {} && worlds[0].holds == map[]
    && forall i :: 0 <= i < |worlds| - 1 ==> Next(net, worlds[i], worlds[i + 1])
  }

  // ---------------------------------------------------------------------------
  // What every step keeps
  // ---------------------------------------------------------------------------

  /**
    An honest directory's word is no further ahead than the clocks allow, is signed while its head is
    unexpired, and lasts its head's time.
   */
  predicate WellTimed(net: Network, w: World, sig: Signature) {
    sig.Signature? && sig.message.FreshBody? ==>
      && sig.message.at <= w.now + net.ahead
      && sig.message.at <= sig.message.hash.signed.head.notAfter
      && sig.message.until == sig.message.at + sig.message.hash.signed.head.freshSecs
  }

  lemma {:induction false} WordsAreWellTimed(net: Network, worlds: seq<World>, i: nat)
    requires Run(net, worlds) && i < |worlds|
    ensures forall sig :: sig in worlds[i].issued ==> WellTimed(net, worlds[i], sig)
  {
    if i > 0 {
      WordsAreWellTimed(net, worlds, i - 1);
      assert Next(net, worlds[i - 1], worlds[i - 1 + 1]);
    }
  }

  /** In every run an honest directory holds only heads that are the root's, and that the root signed in it. */
  lemma {:induction false} HeldHeadsAreTheRoots(net: Network, worlds: seq<World>, i: nat, directory: NodeId)
    requires Run(net, worlds) && i < |worlds| && directory in worlds[i].holds
    ensures var held := worlds[i].holds[directory];
      && SignHead(held.head, net.root) == Ok(held) && held.head.format == POLICY_V5
      && held.sig in worlds[i].issued
  {
    assert Next(net, worlds[i - 1], worlds[i - 1 + 1]);
    if directory in worlds[i - 1].holds {
      HeldHeadsAreTheRoots(net, worlds, i - 1, directory);
    }
    var step :| Enabled(net, worlds[i - 1], step) && worlds[i] == After(net, worlds[i - 1], step);
    if step.Adopt? {
      VerifiesIffSigned(step.head, net.root);
    }
  }

  /** Time, the signatures made and every honest directory's version only grow. */
  predicate Grows(a: World, b: World) {
    && a.now <= b.now && a.issued <= b.issued
    && (forall d :: d in a.holds ==> d in b.holds && a.holds[d].head.version <= b.holds[d].head.version)
  }

  lemma {:induction false} RunGrows(net: Network, worlds: seq<World>, i: nat, j: nat)
    requires Run(net, worlds) && i <= j < |worlds|
    ensures Grows(worlds[i], worlds[j])
  {
    if i < j {
      RunGrows(net, worlds, i, j - 1);
      assert Next(net, worlds[j - 1], worlds[j - 1 + 1]);
    }
  }

  /** Whether an honest directory made `sig` before it held `version`, or for `version` or later. */
  predicate EarlyOrNew(early: World, directory: NodeId, sig: Signature, version: nat) {
    sig.Signature? && sig.key == directory && sig.message.FreshBody? ==>
      sig in early.issued || sig.message.version >= version
  }

  /** Once a directory holds `version`, it vouches for nothing older again. */
  lemma {:induction false} LaterWordsAreNewer(
    net: Network, worlds: seq<World>, i: nat, j: nat, directory: NodeId, sig: Signature)
    requires Run(net, worlds) && i <= j < |worlds|
    requires directory in worlds[i].holds && sig in worlds[j].issued
    ensures EarlyOrNew(worlds[i], directory, sig, worlds[i].holds[directory].head.version)
  {
    if i < j {
      RunGrows(net, worlds, i, j - 1);
      assert Next(net, worlds[j - 1], worlds[j - 1 + 1]);
      if sig in worlds[j - 1].issued {
        LaterWordsAreNewer(net, worlds, i, j - 1, directory, sig);
      }
    }
  }

  // ---------------------------------------------------------------------------
  // The window after a removal
  // ---------------------------------------------------------------------------

  /** A head of a version older than `version`, signed by the root in `w`. */
  predicate OlderHeadIn(net: Network, w: World, content: PolicyHead, version: nat) {
    content.version < version && Sign(net.root, HeadBody(Ed25519, content)) in w.issued
  }

  /** Every directory but `host` listed by a head older than `version` is honest and is past it by `early`. */
  ghost predicate Covered(net: Network, early: World, late: World, host: NodeId, version: nat) {
    forall content, d :: OlderHeadIn(net, late, content, version) && d in content.directories && d != host ==>
      d in net.honest && d in early.holds && early.holds[d].head.version >= version
  }

  /** No head older than `version` has words lasting longer than `longest`. */
  ghost predicate FreshAtMost(net: Network, w: World, version: nat, longest: nat) {
    forall content :: OlderHeadIn(net, w, content, version) ==> content.freshSecs <= longest
  }

  lemma HonestWordLapses(
    net: Network, worlds: seq<World>, i: nat, j: nat, head: SignedPolicyHead, f: Fresh, longest: nat)
    requires Run(net, worlds) && i <= j < |worlds|
    requires SignFresh(f.directory, head, f.at, f.until) == Ok(f)
    requires f.sig in worlds[j].issued
    requires f.directory in worlds[i].holds && worlds[i].holds[f.directory].head.version > head.head.version
    requires head.head.freshSecs <= longest
    ensures f.until <= worlds[i].now + net.ahead + longest
  {
    LaterWordsAreNewer(net, worlds, i, j, f.directory, f.sig);
    WordsAreWellTimed(net, worlds, i);
    assert WellTimed(net, worlds[i], f.sig);
  }

  /**
    After the window no word anyone can show vouches for an older head to a caller dialing `host`, except
    on a network whose one directory is `host`.  This is all a caller relies on, whether the host shows the
    word or the caller kept it from an earlier call.
   */
  lemma NoWordVouches(
    net: Network, worlds: seq<World>, i: nat, j: nat, host: NodeId, version: nat, longest: nat,
    head: SignedPolicyHead, f: Fresh)
    requires Run(net, worlds) && i <= j < |worlds|
    requires Covered(net, worlds[i], worlds[j], host, version)
    requires FreshAtMost(net, worlds[j], version, longest)
    requires worlds[j].now > worlds[i].now + net.ahead + longest
    requires VerifyHead(head, net.root).Ok? && Showable(net, worlds[j], head.sig)
    requires Showable(net, worlds[j], f.sig) && Vouches(f, head, host, worlds[j].now).Ok?
    ensures head.head.version >= version || head.head.directories == [host]
  {
    if head.head.version < version && head.head.directories != [host] {
      FreshVerifiesIffSigned(f, head);
      assert OlderHeadIn(net, worlds[j], head.head, version);
      assert f.directory in head.head.directories;
      HonestWordLapses(net, worlds, i, j, head, f, longest);
    }
  }

  /**
    The removed-host window.  Suppose that by state `i` every directory other than `host` that any head
    older than `version` lists is honest and holds `version` or newer.  Then, once the caller's clock is
    past that time by the clocks' lead and the longest life of a word for such a head, nothing `host` can
    show for a head older than `version` passes the check, whatever the caller holds, except a head whose
    one directory is `host`.
   */
  lemma RemovedHostWindow(
    net: Network, worlds: seq<World>, i: nat, j: nat, host: NodeId, version: nat, longest: nat,
    proof: HostProof, held: SignedPolicyHead)
    requires Run(net, worlds) && i <= j < |worlds|
    requires Covered(net, worlds[i], worlds[j], host, version)
    requires FreshAtMost(net, worlds[j], version, longest)
    requires worlds[j].now > worlds[i].now + net.ahead + longest
    requires ShowableProof(net, worlds[j], proof)
    requires Check(proof, net.root, held, host, worlds[j].now).Ok?
    ensures proof.head.head.version >= version || proof.head.head.directories == [host]
  {
    var f := VouchingIn(proof, host, worlds[j].now).value;
    NoWordVouches(net, worlds, i, j, host, version, longest, proof.head, f);
  }

  /** Whether a head signed between `a` and `b` is of a higher version than all signed before. */
  ghost predicate RootRisesBetween(net: Network, a: World, b: World) {
    forall content, older ::
      Sign(net.root, HeadBody(Ed25519, content)) in b.issued - a.issued
      && Sign(net.root, HeadBody(Ed25519, older)) in a.issued
      ==> older.version < content.version
  }

  ghost predicate RootRises(net: Network, worlds: seq<World>) {
    forall i :: 0 <= i < |worlds| - 1 ==> RootRisesBetween(net, worlds[i], worlds[i + 1])
  }

  /** With rising versions, every head older than one already signed was itself signed by then. */
  lemma {:induction false} OlderHeadsCameFirst(
    net: Network, worlds: seq<World>, i: nat, j: nat, newest: PolicyHead, content: PolicyHead)
    requires Run(net, worlds) && RootRises(net, worlds) && i <= j < |worlds|
    requires Sign(net.root, HeadBody(Ed25519, newest)) in worlds[i].issued
    requires OlderHeadIn(net, worlds[j], content, newest.version)
    ensures OlderHeadIn(net, worlds[i], content, newest.version)
  {
    if i < j {
      RunGrows(net, worlds, i, j - 1);
      assert RootRisesBetween(net, worlds[j - 1], worlds[j - 1 + 1]);
      OlderHeadsCameFirst(net, worlds, i, j - 1, newest, content);
    }
  }

  /**
    The same for a root that numbers its heads upwards, as the admin's edits do: it is enough to look at
    one state, in which a head of `newest`'s version has been signed and every directory but `host` of the
    older heads holds that version or later.
   */
  lemma RemovedHostWindowRising(
    net: Network, worlds: seq<World>, i: nat, j: nat, host: NodeId, newest: PolicyHead, longest: nat,
    proof: HostProof, held: SignedPolicyHead)
    requires Run(net, worlds) && RootRises(net, worlds) && i <= j < |worlds|
    requires Sign(net.root, HeadBody(Ed25519, newest)) in worlds[i].issued
    requires Covered(net, worlds[i], worlds[i], host, newest.version)
    requires FreshAtMost(net, worlds[i], newest.version, longest)
    requires worlds[j].now > worlds[i].now + net.ahead + longest
    requires ShowableProof(net, worlds[j], proof)
    requires Check(proof, net.root, held, host, worlds[j].now).Ok?
    ensures proof.head.head.version >= newest.version || proof.head.head.directories == [host]
  {
    forall content | OlderHeadIn(net, worlds[j], content, newest.version)
      ensures OlderHeadIn(net, worlds[i], content, newest.version)
    {
      OlderHeadsCameFirst(net, worlds, i, j, newest, content);
    }
    RemovedHostWindow(net, worlds, i, j, host, newest.version, longest, proof, held);
  }

  // ---------------------------------------------------------------------------
  // The window is tight, the exception is real, and an honest host passes
  // ---------------------------------------------------------------------------

  /** A current host is told: a fresh beat's word passes for as long as it is good. */
  lemma FreshBeatPasses(
    net: Network, w: World, directory: NodeId, clock: int, host: NodeId, held: SignedPolicyHead, now: int)
    requires Enabled(net, w, Beat(directory, clock)) && directory != host
    requires VerifyHead(w.holds[directory], net.root).Ok?
    requires w.holds[directory].head.version > held.head.version || w.holds[directory] == held
    requires clock - CLOCK_SKEW_SECS <= now <= clock + w.holds[directory].head.freshSecs
    requires now <= w.holds[directory].head.notAfter
    ensures Check(HostProof(w.holds[directory], [BeatWord(w, directory, clock).value]), net.root, held, host, now).Ok?
  {
  }

  /** On a one-machine network the host's own word is all there is, and it is enough at any time. */
  lemma OneMachineNetwork(
    net: Network, w: World, head: SignedPolicyHead, host: NodeId, now: int)
    returns (proof: HostProof)
    requires VerifyHead(head, net.root).Ok? && Showable(net, w, head.sig)
    requires head.head.directories == [host] && now <= head.head.notAfter
    requires host != net.root && host !in net.honest
    ensures ShowableProof(net, w, proof) && proof.head == head
    ensures Check(proof, net.root, head, host, now) == Ok(Same)
  {
    var word := SignFresh(host, head, now, now).value;
    FreshVerifiesIffSigned(word, head);
    proof := HostProof(head, [word]);
  }

  function SampleHead(version: nat, freshSecs: nat, notAfter: int): PolicyHead {
    PolicyHead(POLICY_V5, 0, version, 0, notAfter, [1], freshSecs, ItemsHash([]))
  }

  /** A directory takes a head, vouches for it, then takes the next one, and time passes. */
  lemma BeatThenAdoptRun(net: Network, first: PolicyHead, second: PolicyHead, directory: NodeId, secs: nat)
    returns (worlds: seq<World>, word: Fresh)
    requires directory in net.honest && directory in first.directories
    requires first.format == POLICY_V5 && second.format == POLICY_V5
    requires SignHead(first, net.root).Ok? && SignHead(second, net.root).Ok?
    requires net.ahead <= first.notAfter && net.ahead <= second.notAfter && first.version < second.version
    ensures Run(net, worlds) && |worlds| == 7
    ensures worlds[5].now == 0 && worlds[6].now == secs
    ensures worlds[5].holds == map[directory := SignHead(second, net.root).value]
    ensures SignFresh(directory, SignHead(first, net.root).value, net.ahead, net.ahead + first.freshSecs) == Ok(word)
    ensures worlds[6].issued == {SignHead(first, net.root).value.sig, word.sig, SignHead(second, net.root).value.sig}
  {
    var a, b := SignHead(first, net.root).value, SignHead(second, net.root).value;
    word := SignFresh(directory, a, net.ahead, net.ahead + first.freshSecs).value;
    var w0 := World(0, {}, map[]);
    var w1 := World(0, {a.sig}, map[]);
    var w2 := World(0, {a.sig}, map[directory := a]);
    var w3 := World(0, {a.sig, word.sig}, map[directory := a]);
    var w4 := World(0, {a.sig, word.sig, b.sig}, map[directory := a]);
    var w5 := World(0, {a.sig, word.sig, b.sig}, map[directory := b]);
    var w6 := World(secs, {a.sig, word.sig, b.sig}, map[directory := b]);
    worlds := [w0, w1, w2, w3, w4, w5, w6];
    assert Enabled(net, w0, RootSigns(first)) && After(net, w0, RootSigns(first)) == w1;
    assert Enabled(net, w1, Adopt(directory, a, 0)) && After(net, w1, Adopt(directory, a, 0)) == w2;
    assert Enabled(net, w2, Beat(directory, net.ahead)) && After(net, w2, Beat(directory, net.ahead)) == w3;
    assert Enabled(net, w3, RootSigns(second)) && After(net, w3, RootSigns(second)) == w4;
    assert Enabled(net, w4, Adopt(directory, b, 0)) && After(net, w4, Adopt(directory, b, 0)) == w5;
    assert Enabled(net, w5, Wait(secs)) && After(net, w5, Wait(secs)) == w6;
  }

  /**
    At the very last second of the window an older head can still pass: no shorter bound holds, whatever
    the clocks' lead and the life of a word.
   */
  lemma WindowIsTight(ahead: nat, longest: nat) returns (net: Network, worlds: seq<World>, i: nat, proof: HostProof)
    ensures net.ahead == ahead
    ensures Run(net, worlds) && i < |worlds|
    ensures Covered(net, worlds[i], worlds[|worlds| - 1], 2, 2)
    ensures FreshAtMost(net, worlds[|worlds| - 1], 2, longest)
    ensures worlds[|worlds| - 1].now == worlds[i].now + ahead + longest
    ensures ShowableProof(net, worlds[|worlds| - 1], proof)
    ensures Check(proof, net.root, proof.head, 2, worlds[|worlds| - 1].now) == Ok(Same)
    ensures proof.head.head.version < 2 && proof.head.head.directories != [2]
  {
    net, i := Network(0, {1}, ahead), 5;
    var first, second := SampleHead(1, longest, ahead + longest), SampleHead(2, longest, ahead + longest);
    var word;
    worlds, word := BeatThenAdoptRun(net, first, second, 1, ahead + longest);
    proof := HostProof(SignHead(first, 0).value, [word]);
    FreshVerifiesIffSigned(word, proof.head);
  }
}
