/** The root-signed head of a policy, and a service entry the root signs on its own. */
module Heads {
  import opened Prelude
  import opened Terms

  const POLICY_V5 := 5
  const ENTRY_V2 := 2

  function SignHead(head: PolicyHead, root: NodeId): Result<SignedPolicyHead, Error> {
    if root != head.fabric then Err(FabricMismatch)
    else
      var _ :- Require(Distinct(head.directories), InvalidPolicy);
      Ok(SignedPolicyHead(head, Ed25519, Sign(root, HeadBody(Ed25519, head))))
  }

  function VerifyHead(signed: SignedPolicyHead, root: NodeId): Result<(), Error> {
    var _ :- Require(signed.alg == Ed25519, UnsupportedAlgorithm);
    var _ :- Require(signed.head.format == POLICY_V5, UnsupportedVersion);
    var _ :- Require(signed.head.fabric == root, InvalidSignature);
    var _ :- CheckSignature(root, HeadBody(signed.alg, signed.head), signed.sig);
    Require(Distinct(signed.head.directories), InvalidPolicy)
  }

  function CheckNotExpired(signed: SignedPolicyHead, now: int): Result<(), Error> {
    Require(now <= signed.head.notAfter, Expired)
  }

  predicate IsNewerThan(signed: SignedPolicyHead, other: SignedPolicyHead) {
    signed.head.fabric == other.head.fabric && signed.head.version > other.head.version
  }

  /** "Newer" orders the heads of one network by version, strictly, and no two heads of different networks. */
  lemma NewerOrders(a: SignedPolicyHead, b: SignedPolicyHead)
    ensures a.head.fabric != b.head.fabric ==> !IsNewerThan(a, b)
    ensures a.head.fabric == b.head.fabric ==>
      (IsNewerThan(a, b) <==> a.head.version > b.head.version) && !(IsNewerThan(a, b) && IsNewerThan(b, a))
  {
  }

  function SignEntry(root: NodeId, version: nat, name: ServiceName, service: Service): SignedEntry {
    SignedEntry(ENTRY_V2, root, version, name, service, Ed25519,
                Sign(root, EntryBody(ENTRY_V2, root, version, name, service, Ed25519)))
  }

  function EntrySignedBytes(entry: SignedEntry): Signable {
    EntryBody(entry.format, entry.fabric, entry.version, entry.name, entry.service, entry.alg)
  }

  function VerifyEntry(entry: SignedEntry, root: NodeId): Result<(), Error> {
    var _ :- Require(entry.format == ENTRY_V2, UnsupportedVersion);
    var _ :- Require(entry.alg == Ed25519, UnsupportedAlgorithm);
    var _ :- Require(entry.fabric == root, InvalidSignature);
    CheckSignature(root, EntrySignedBytes(entry), entry.sig)
  }

  /** Whether an edit may keep this entry for `service` under `name`. */
  predicate IsFor(entry: SignedEntry, fabric: NodeId, name: ServiceName, service: Service) {
    entry.fabric == fabric && entry.name == name && entry.service == service
  }

  /** An entry belongs under a head of its network that is at least as new. */
  function CheckEntryVersion(entry: SignedEntry, head: SignedPolicyHead): Result<(), Error> {
    var _ :- Require(entry.fabric == head.head.fabric, InvalidSignature);
    Require(entry.version <= head.head.version, InvalidPolicy)
  }

  /** A head verifies exactly when it is what `SignHead` makes of a current-format content. */
  lemma VerifiesIffSigned(signed: SignedPolicyHead, root: NodeId)
    ensures VerifyHead(signed, root).Ok?
            <==> signed.head.format == POLICY_V5 && SignHead(signed.head, root) == Ok(signed)
    ensures VerifyHead(signed, root).Ok? ==>
      && signed.head.fabric == root && Distinct(signed.head.directories)
      && signed.sig == Signature(root, HeadBody(Ed25519, signed.head))
  {
  }

  /** An entry verifies exactly when it is what `SignEntry` makes of its own fields. */
  lemma EntryVerifiesIffSigned(entry: SignedEntry, root: NodeId)
    ensures VerifyEntry(entry, root).Ok?
            <==> entry == SignEntry(root, entry.version, entry.name, entry.service)
  {
  }
}
