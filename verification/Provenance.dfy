/** Where a policy and its entries come from: along a chain of edits, and against forgery. */
module Provenance {
  import opened Prelude
  import opened Terms
  import opened Heads
  import opened Policies
  import opened RoundTrip

  // ---------------------------------------------------------------------------
  // A chain of edits
  // ---------------------------------------------------------------------------

  /** Whether a policy, signed over an earlier one or alone, is what was signed. */
  type Signer = (Policy, Option<SignedPolicy>, SignedPolicy) -> bool

  function RootSigns(root: NodeId): Signer {
    (p: Policy, previous: Option<SignedPolicy>, s: SignedPolicy) => SignWith(p, root, previous) == Ok(s)
  }

  function Before(signed: seq<SignedPolicy>, i: nat): Option<SignedPolicy>
    requires i <= |signed|
  {
    if i == 0 then None else Some(signed[i - 1])
  }

  predicate LinkedAt(signer: Signer, policies: seq<Policy>, signed: seq<SignedPolicy>, i: nat)
    requires i < |signed| == |policies|
  {
    signer(policies[i], Before(signed, i), signed[i])
  }

  /** The first policy signed alone, each later one over the one before it, versions rising. */
  ghost predicate Chain(root: NodeId, policies: seq<Policy>, signed: seq<SignedPolicy>) {
    && |policies| == |signed| > 0
    && (forall i :: 0 <= i < |signed| ==> LinkedAt(RootSigns(root), policies, signed, i))
    && (forall i :: 1 <= i < |policies| ==> policies[i - 1].version < policies[i].version)
  }

  lemma LinkIs(root: NodeId, policies: seq<Policy>, signed: seq<SignedPolicy>, i: nat)
    requires Chain(root, policies, signed) && i < |signed|
    ensures SignWith(policies[i], root, Before(signed, i)) == Ok(signed[i])
  {
    assert LinkedAt(RootSigns(root), policies, signed, i);
  }

  /** Any valid policy of the root's network starts a chain. */
  lemma ChainStarts(root: NodeId, p: Policy)
    requires ValidPolicy(p) && p.fabric == root
    ensures SignWith(p, root, None).Ok?
    ensures Chain(root, [p], [SignWith(p, root, None).value])
  {
    ValidSigns(p, root, None);
  }

  lemma LinksGoOn(
    signer: Signer, policies: seq<Policy>, signed: seq<SignedPolicy>, p: Policy, s: SignedPolicy)
    requires |policies| == |signed| && signer(p, Before(signed, |signed|), s)
    requires forall i :: 0 <= i < |signed| ==> LinkedAt(signer, policies, signed, i)
    ensures forall i :: 0 <= i < |signed + [s]| ==> LinkedAt(signer, policies + [p], signed + [s], i)
  {
    forall i | 0 <= i < |signed + [s]| ensures LinkedAt(signer, policies + [p], signed + [s], i) {
      assert Before(signed + [s], i) == Before(signed, i);
      assert i < |signed| ==> LinkedAt(signer, policies, signed, i);
    }
  }

  /** Any valid policy of a higher version can be signed over a chain's last one, and extends the chain. */
  lemma ChainExtends(root: NodeId, policies: seq<Policy>, signed: seq<SignedPolicy>, p: Policy)
    requires Chain(root, policies, signed)
    requires ValidPolicy(p) && p.fabric == root && p.version > policies[|policies| - 1].version
    ensures SignAfter(p, root, signed[|signed| - 1]).Ok?
    ensures Chain(root, policies + [p], signed + [SignAfter(p, root, signed[|signed| - 1]).value])
  {
    ValidSigns(p, root, Some(signed[|signed| - 1]));
    LinksGoOn(RootSigns(root), policies, signed, p, SignAfter(p, root, signed[|signed| - 1]).value);
  }

  /** Valid policies of one network, versions rising: what an admin may go on to sign, one over the other. */
  ghost predicate CanChain(root: NodeId, policies: seq<Policy>) {
    && policies != []
    && (forall i :: 0 <= i < |policies| ==> ValidPolicy(policies[i]) && policies[i].fabric == root)
    && (forall i :: 1 <= i < |policies| ==> policies[i - 1].version < policies[i].version)
  }

  lemma ChainOneMore(root: NodeId, policies: seq<Policy>, signed: seq<SignedPolicy>, p: Policy)
    returns (more: seq<SignedPolicy>)
    requires Chain(root, policies, signed)
    requires ValidPolicy(p) && p.fabric == root && p.version > policies[|policies| - 1].version
    ensures Chain(root, policies + [p], more)
  {
    ChainExtends(root, policies, signed, p);
    more := signed + [SignAfter(p, root, signed[|signed| - 1]).value];
  }

  /** Every such sequence can be signed from its first policy to its last. */
  lemma {:induction false} ChainOf(root: NodeId, policies: seq<Policy>) returns (signed: seq<SignedPolicy>)
    requires CanChain(root, policies)
    ensures Chain(root, policies, signed)
  {
    var n := |policies| - 1;
    if n == 0 {
      assert policies == [policies[0]];
      ChainStarts(root, policies[0]);
      signed := [SignWith(policies[0], root, None).value];
    } else {
      assert policies == policies[..n] + [policies[n]];
      signed := ChainOf(root, policies[..n]);
      signed := ChainOneMore(root, policies[..n], signed, policies[n]);
    }
  }

  lemma LinkVerifies(root: NodeId, policies: seq<Policy>, signed: seq<SignedPolicy>, i: nat)
    requires Chain(root, policies, signed) && i < |signed|
    requires i > 0 ==> EntriesVerify(signed[i - 1].items, root)
    ensures VerifyPolicy(signed[i], root).Ok?
    ensures ToPolicy(signed[i]) == Ok(policies[i])
    ensures EntriesVerify(signed[i].items, root)
  {
    LinkIs(root, policies, signed, i);
    SignedVerifies(policies[i], root, Before(signed, i));
  }

  /** Every policy in a chain verifies and rebuilds to the policy it was signed from. */
  lemma {:induction false} ChainVerifies(root: NodeId, policies: seq<Policy>, signed: seq<SignedPolicy>, i: nat)
    requires Chain(root, policies, signed) && i < |signed|
    ensures VerifyPolicy(signed[i], root).Ok?
    ensures ToPolicy(signed[i]) == Ok(policies[i])
    ensures EntriesVerify(signed[i].items, root)
  {
    if i > 0 {
      ChainVerifies(root, policies, signed, i - 1);
    }
    LinkVerifies(root, policies, signed, i);
  }

  /** Whether `name` has the same body in `policies[i]` as it has in `policies[at]`. */
  predicate SameBody(policies: seq<Policy>, name: ServiceName, at: nat, i: nat)
    requires at < |policies| && i < |policies| && name in policies[at].services
  {
    name in policies[i].services && policies[i].services[name] == policies[at].services[name]
  }

  /** `first..at` is the latest unbroken run of `name`'s present body: it started at `first`. */
  ghost predicate RunOf(policies: seq<Policy>, name: ServiceName, first: nat, at: nat) {
    && first <= at < |policies|
    && name in policies[at].services
    && (forall k :: first <= k <= at ==> SameBody(policies, name, at, k))
    && (first > 0 ==> !SameBody(policies, name, at, first - 1))
  }

  lemma SignedEntryIs(p: Policy, root: NodeId, previous: Option<SignedPolicy>, name: ServiceName)
    requires SignWith(p, root, previous).Ok?
    ensures Kept(SignWith(p, root, previous).value.items, name)
         == if name in p.services then Some(EntryFor(p, previous, name)) else None
  {
    var items := Flattened(p, previous);
    FlattenedKeys(p, previous);
    if name in p.services {
      FlattenedEntry(p, previous, EntryFor(p, previous, name));
      KeptIsTheEntry(items, EntryFor(p, previous, name));
    } else if Kept(items, name).Some? {
      FlattenedEntry(p, previous, Kept(items, name).value);
    }
  }

  /** What each policy of a chain holds for one name. */
  function HeldFor(signed: seq<SignedPolicy>, name: ServiceName): (held: seq<Option<SignedEntry>>)
    ensures |held| == |signed|
    ensures forall i :: 0 <= i < |signed| ==> held[i] == Kept(signed[i].items, name)
  {
    seq(|signed|, i requires 0 <= i < |signed| => Kept(signed[i].items, name))
  }

  /** How one name's entry passes from each policy to the next: kept if it fits, else signed anew. */
  ghost predicate Handed(
    root: NodeId, policies: seq<Policy>, name: ServiceName, held: seq<Option<SignedEntry>>, i: nat)
    requires i < |held| == |policies|
  {
    held[i] == if name in policies[i].services
               then Some(NextEntry(root, policies[i], name, if i == 0 then None else held[i - 1]))
               else None
  }

  lemma ChainHands(root: NodeId, policies: seq<Policy>, signed: seq<SignedPolicy>, name: ServiceName, i: nat)
    requires Chain(root, policies, signed) && i < |signed|
    ensures Handed(root, policies, name, HeldFor(signed, name), i)
  {
    LinkIs(root, policies, signed, i);
    SignedEntryIs(policies[i], root, Before(signed, i), name);
  }

  function NextEntry(root: NodeId, p: Policy, name: ServiceName, before: Option<SignedEntry>): (e: SignedEntry)
    requires name in p.services
    ensures e.service == p.services[name]
  {
    if before.Some? && IsFor(before.value, root, name, p.services[name]) && before.value.version <= p.version
    then before.value
    else SignEntry(root, p.version, name, p.services[name])
  }

  lemma {:induction false} RunEntry(
    root: NodeId, policies: seq<Policy>, name: ServiceName, held: seq<Option<SignedEntry>>, first: nat, at: nat)
    requires |held| == |policies|
    requires forall i :: 0 <= i < |held| ==> Handed(root, policies, name, held, i)
    requires forall i, j :: 0 <= i <= j < |policies| ==> policies[i].version <= policies[j].version
    requires RunOf(policies, name, first, at)
    ensures held[at] == Some(SignEntry(root, policies[first].version, name, policies[at].services[name]))
    decreases at
  {
    assert Handed(root, policies, name, held, at);
    if first < at {
      RunShortens(policies, name, first, at - 1, at);
      RunEntry(root, policies, name, held, first, at - 1);
    } else if at > 0 {
      assert !SameBody(policies, name, at, at - 1);
      assert Handed(root, policies, name, held, at - 1);
    }
  }

  lemma RunEntries(
    root: NodeId, policies: seq<Policy>, name: ServiceName, held: seq<Option<SignedEntry>>, first: nat, at: nat)
    requires |held| == |policies|
    requires forall i :: 0 <= i < |held| ==> Handed(root, policies, name, held, i)
    requires forall i, j :: 0 <= i <= j < |policies| ==> policies[i].version <= policies[j].version
    requires RunOf(policies, name, first, at)
    ensures forall k :: first <= k <= at ==>
      held[k] == Some(SignEntry(root, policies[first].version, name, policies[at].services[name]))
  {
    forall k | first <= k <= at
      ensures held[k] == Some(SignEntry(root, policies[first].version, name, policies[at].services[name]))
    {
      RunShortens(policies, name, first, k, at);
      RunEntry(root, policies, name, held, first, k);
    }
  }

  lemma RunShortens(policies: seq<Policy>, name: ServiceName, first: nat, mid: nat, at: nat)
    requires RunOf(policies, name, first, at) && first <= mid <= at
    ensures RunOf(policies, name, first, mid)
    ensures policies[mid].services[name] == policies[at].services[name]
  {
    assert SameBody(policies, name, at, mid);
    forall k | first <= k <= mid ensures SameBody(policies, name, mid, k) {
      assert SameBody(policies, name, at, k);
    }
  }

  /**
    An entry's version is the first version of the latest unbroken run in which its service had its
    present body, and the entry has been the same one, signature included, throughout that run.
    Removing a service and adding it again, even with the same body, starts a new run.
   */
  lemma EntryProvenance(
    root: NodeId, policies: seq<Policy>, signed: seq<SignedPolicy>, name: ServiceName, first: nat, at: nat)
    requires Chain(root, policies, signed)
    requires RunOf(policies, name, first, at)
    ensures forall k :: first <= k <= at ==>
      Kept(signed[k].items, name)
      == Some(SignEntry(root, policies[first].version, name, policies[at].services[name]))
  {
    var held := HeldFor(signed, name);
    forall i | 0 <= i < |held| ensures Handed(root, policies, name, held, i) {
      ChainHands(root, policies, signed, name, i);
    }
    forall i, j | 0 <= i <= j < |policies| ensures policies[i].version <= policies[j].version {
      VersionsRise(root, policies, signed, i, j);
    }
    RunEntries(root, policies, name, held, first, at);
  }

  lemma {:induction false} VersionsRise(
    root: NodeId, policies: seq<Policy>, signed: seq<SignedPolicy>, i: nat, j: nat)
    requires Chain(root, policies, signed) && i <= j < |policies|
    ensures policies[i].version <= policies[j].version
    ensures i < j ==> policies[i].version < policies[j].version
  {
    if i < j {
      VersionsRise(root, policies, signed, i, j - 1);
    }
  }

  /** Every service of every policy in a chain has such a run. */
  lemma {:induction false} RunExists(policies: seq<Policy>, name: ServiceName, at: nat) returns (first: nat)
    requires at < |policies| && name in policies[at].services
    ensures RunOf(policies, name, first, at)
  {
    first := at;
    while first > 0 && SameBody(policies, name, at, first - 1)
      invariant first <= at
      invariant forall k :: first <= k <= at ==> SameBody(policies, name, at, k)
    {
      first := first - 1;
    }
  }

  lemma HeldEntry(root: NodeId, policies: seq<Policy>, signed: seq<SignedPolicy>, name: ServiceName, at: nat)
    returns (first: nat)
    requires Chain(root, policies, signed) && at < |policies| && name in policies[at].services
    ensures RunOf(policies, name, first, at)
    ensures forall k :: first <= k <= at ==>
      Kept(signed[k].items, name)
      == Some(SignEntry(root, policies[first].version, name, policies[at].services[name]))
  {
    first := RunExists(policies, name, at);
    EntryProvenance(root, policies, signed, name, first, at);
  }

  /**
    A later policy of a chain carries an earlier one's entry for a service, signature and all, exactly when
    the service had the same body in every policy in between.
   */
  lemma EntryKeptIff(
    root: NodeId, policies: seq<Policy>, signed: seq<SignedPolicy>, name: ServiceName, i: nat, at: nat)
    requires Chain(root, policies, signed) && i <= at < |policies|
    requires name in policies[i].services && name in policies[at].services
    ensures Kept(signed[i].items, name).Some?
    ensures Kept(signed[i].items, name) == Kept(signed[at].items, name)
            <==> forall k :: i <= k <= at ==> SameBody(policies, name, at, k)
  {
    var since := HeldEntry(root, policies, signed, name, i);
    var first := HeldEntry(root, policies, signed, name, at);
    if i < first {
      VersionsRise(root, policies, signed, since, first);
    }
  }

  // ---------------------------------------------------------------------------
  // No forging, dropping or mixing
  // ---------------------------------------------------------------------------

  /** One use of the root key: a policy signed, alone or over an earlier one. */
  datatype Signing = Signing(policy: Policy, previous: Option<SignedPolicy>)

  /** The messages one signing puts the root's signature on. */
  ghost function MessagesOf(root: NodeId, s: Signing): set<Signable> {
    if SignWith(s.policy, root, s.previous).Err? then {}
    else
      {HeadBody(Ed25519, HeadOf(s.policy, Flattened(s.policy, s.previous)))}
      + set name | name in s.policy.services
                   && EntryFor(s.policy, s.previous, name)
                      == SignEntry(root, s.policy.version, name, s.policy.services[name])
        :: EntrySignedBytes(EntryFor(s.policy, s.previous, name))
  }

  /** Only the root's own signings put its signature on anything. */
  ghost predicate Unforged(root: NodeId, signings: seq<Signing>, sig: Signature) {
    sig.Signature? && sig.key == root ==>
      exists s :: s in signings && sig.message in MessagesOf(root, s)
  }

  /** A signed policy that verifies is, head and items, one the root produced. */
  lemma NoForging(root: NodeId, signings: seq<Signing>, signed: SignedPolicy)
    requires VerifyPolicy(signed, root).Ok?
    requires Unforged(root, signings, signed.head.sig)
    ensures exists s :: s in signings && SignWith(s.policy, root, s.previous) == Ok(signed)
  {
    VerifiedParts(signed, root);
    var s :| s in signings && signed.head.sig.message in MessagesOf(root, s);
    HeadSigningMakes(root, s, signed);
  }

  /**
    And nothing the root produced is lost: over signings whose earlier policies held only entries that
    verify, the policies that verify under an unforged head are exactly the ones signed.
   */
  lemma VerifiesIffProduced(root: NodeId, signings: seq<Signing>, signed: SignedPolicy)
    requires forall s :: s in signings && s.previous.Some? ==> EntriesVerify(s.previous.value.items, root)
    ensures VerifyPolicy(signed, root).Ok? && Unforged(root, signings, signed.head.sig)
            <==> exists s :: s in signings && SignWith(s.policy, root, s.previous) == Ok(signed)
  {
    if VerifyPolicy(signed, root).Ok? && Unforged(root, signings, signed.head.sig) {
      NoForging(root, signings, signed);
    }
    if s :| s in signings && SignWith(s.policy, root, s.previous) == Ok(signed) {
      SignedVerifies(s.policy, root, s.previous);
      SigningsAreUnforged(root, signings, s);
    }
  }

  lemma SigningsAreUnforged(root: NodeId, signings: seq<Signing>, s: Signing)
    requires s in signings && SignWith(s.policy, root, s.previous).Ok?
    ensures Unforged(root, signings, SignWith(s.policy, root, s.previous).value.head.sig)
  {
  }

  /** The signing that put the root's name to a policy's head made that policy. */
  lemma HeadSigningMakes(root: NodeId, s: Signing, signed: SignedPolicy)
    requires HeadBody(Ed25519, signed.head.head) in MessagesOf(root, s)
    requires SignHead(signed.head.head, root) == Ok(signed.head)
    requires signed.head.head.itemsHash == ItemsHash(signed.items)
    ensures SignWith(s.policy, root, s.previous) == Ok(signed)
  {
  }

  /** A head that verifies, shown without its items, is that of a policy the root signed. */
  lemma NoForgedHead(root: NodeId, signings: seq<Signing>, head: SignedPolicyHead)
    requires VerifyHead(head, root).Ok?
    requires Unforged(root, signings, head.sig)
    ensures exists s :: s in signings && SignWith(s.policy, root, s.previous).Ok?
                        && SignWith(s.policy, root, s.previous).value.head == head
                        && s.policy.version == head.head.version
  {
    VerifiesIffSigned(head, root);
    var s :| s in signings && head.sig.message in MessagesOf(root, s);
    HeadMessageMakes(root, s, head);
  }

  lemma HeadMessageMakes(root: NodeId, s: Signing, head: SignedPolicyHead)
    requires HeadBody(Ed25519, head.head) in MessagesOf(root, s)
    requires SignHead(head.head, root) == Ok(head)
    ensures SignWith(s.policy, root, s.previous).Ok?
    ensures SignWith(s.policy, root, s.previous).value.head == head && s.policy.version == head.head.version
  {
  }

  /** Two verified policies under one head have the same items, whoever serves them. */
  lemma NoMixing(root: NodeId, a: SignedPolicy, b: SignedPolicy)
    requires VerifyPolicy(a, root).Ok? && VerifyPolicy(b, root).Ok?
    requires HeadHash(a.head) == HeadHash(b.head)
    ensures a == b
  {
  }

  /** An entry that verifies alone was, at its own version, a service of a policy the root signed. */
  lemma NoForgedEntry(root: NodeId, signings: seq<Signing>, e: SignedEntry)
    requires VerifyEntry(e, root).Ok?
    requires Unforged(root, signings, e.sig)
    ensures exists s :: s in signings && SignWith(s.policy, root, s.previous).Ok?
                        && s.policy.version == e.version
                        && e.name in s.policy.services && s.policy.services[e.name] == e.service
  {
    EntryVerifiesIffSigned(e, root);
    var s :| s in signings && e.sig.message in MessagesOf(root, s);
    var name :| name in s.policy.services
                && EntrySignedBytes(EntryFor(s.policy, s.previous, name)) == EntrySignedBytes(e);
  }
}
