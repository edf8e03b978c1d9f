/**
  The signed objects of a network: policy items, heads, service entries and freshness words.

  Signatures are ideal.  A signature names the key that made it and the exact message it
  covers, and nobody else's signature equals it; `Forged` stands for every other 64 bytes.
  Which signatures exist is a property of a run (modules `Provenance` and `Protocol`).
  Hashes are ideal too: a hash is the value it was taken of, so equal hashes mean equal values.
  The three kinds of signed bytes carry different context prefixes, hence the three
  constructors of `Signable`.
 */
module Terms {
  import opened Prelude

  /** A public key.  An identity (the private half) is named by the same value. */
  type NodeId = nat
  type RoleName = string
  type ServiceName = string
  type Issuer = string

  datatype AlgorithmId = Ed25519 | OtherScheme

  datatype EmailPattern = Exact(address: string) | Domain(domain: string)

  datatype Matcher = Matcher(
    issuer: string,
    email: Option<EmailPattern>,
    org: Option<string>,
    group: Option<string>)

  /** Who a verified ID token says the caller is. */
  datatype Principal = Principal(
    issuer: string,
    subject: string,
    email: Option<string>,
    org: Option<string>,
    groups: seq<string>,
    notAfter: int)

  datatype Person = Person(issuer: Issuer, email: string)

  datatype Service = Service(description: string, allow: seq<RoleName>, hosts: seq<NodeId>)

  datatype IssuerConfig = IssuerConfig(clientId: string, audiences: seq<string>)

  datatype Settings = Settings(beatSecs: nat, freshSecs: nat)

  datatype ItemKey =
    | RoleKey(role: RoleName)
    | ServiceKey(service: ServiceName)
    | BanKey(node: NodeId)
    | PersonBanKey(person: Person)
    | IssuerKey(issuer: Issuer)
    | SettingsKey

  datatype Item =
    | RoleItem(role: RoleName, matchers: seq<Matcher>)
    | ServiceItem(entry: SignedEntry)
    | BanItem(node: NodeId)
    | PersonBanItem(person: Person)
    | IssuerItem(issuer: Issuer, config: IssuerConfig)
    | SettingsItem(settings: Settings)
  {
    function Key(): ItemKey {
      match this
      case RoleItem(role, _) => RoleKey(role)
      case ServiceItem(entry) => ServiceKey(entry.name)
      case BanItem(node) => BanKey(node)
      case PersonBanItem(person) => PersonBanKey(person)
      case IssuerItem(issuer, _) => IssuerKey(issuer)
      case SettingsItem(_) => SettingsKey
    }
  }

  datatype SignedEntry = SignedEntry(
    format: nat,
    fabric: NodeId,
    version: nat,
    name: ServiceName,
    service: Service,
    alg: AlgorithmId,
    sig: Signature)

  datatype ItemsHash = ItemsHash(items: seq<Item>)

  datatype PolicyHead = PolicyHead(
    format: nat,
    fabric: NodeId,
    version: nat,
    issued: int,
    notAfter: int,
    directories: seq<NodeId>,
    freshSecs: nat,
    itemsHash: ItemsHash)

  datatype SignedPolicyHead = SignedPolicyHead(head: PolicyHead, alg: AlgorithmId, sig: Signature)

  datatype HeadHash = HeadHash(signed: SignedPolicyHead)

  datatype Fresh = Fresh(
    format: nat,
    fabric: NodeId,
    directory: NodeId,
    version: nat,
    head: HeadHash,
    at: int,
    until: int,
    alg: AlgorithmId,
    sig: Signature)

  datatype Signable =
    | HeadBody(headAlg: AlgorithmId, head: PolicyHead)
    | EntryBody(format: nat, fabric: NodeId, version: nat, name: ServiceName, service: Service,
                alg: AlgorithmId)
    | FreshBody(format: nat, fabric: NodeId, directory: NodeId, version: nat, hash: HeadHash,
                at: int, until: int, alg: AlgorithmId)

  datatype Signature =
    | Signature(key: NodeId, message: Signable)
    | Forged(bits: nat)

  /** What a node's key signs. */
  function Sign(identity: NodeId, message: Signable): Signature {
    Signature(identity, message)
  }

  /** Whether `sig` over `message` was produced by the key `key` names. */
  function CheckSignature(key: NodeId, message: Signable, sig: Signature): Result<(), Error> {
    Require(sig == Sign(key, message), InvalidSignature)
  }

  datatype SignedPolicy = SignedPolicy(head: SignedPolicyHead, items: seq<Item>)

  /** The policy as the admin edits it: head fields, and every item by kind. */
  datatype Policy = Policy(
    fabric: NodeId,
    version: nat,
    issued: int,
    notAfter: int,
    directories: seq<NodeId>,
    roles: map<RoleName, seq<Matcher>>,
    services: map<ServiceName, Service>,
    bans: set<NodeId>,
    personBans: set<Person>,
    issuers: map<Issuer, IssuerConfig>,
    settings: Settings)

  datatype View = View(head: SignedPolicyHead, entries: seq<SignedEntry>)

  predicate Distinct(nodes: seq<NodeId>) {
    forall i, j :: 0 <= i < j < |nodes| ==> nodes[i] != nodes[j]
  }

  /** The scan that both a head and a policy use to find a node listed twice. */
  method FindRepeat(nodes: seq<NodeId>) returns (repeated: bool)
    ensures repeated <==> !Distinct(nodes)
  {
    var seen: set<NodeId> := {};
    for i := 0 to |nodes|
      invariant Distinct(nodes[..i])
      invariant forall n :: n in seen <==> n in nodes[..i]
    {
      if nodes[i] in seen {
        ghost var j :| 0 <= j < i && nodes[j] == nodes[i];
        return true;
      }
      seen := seen + {nodes[i]};
      assert nodes[..i + 1] == nodes[..i] + [nodes[i]];
    }
    assert nodes[..|nodes|] == nodes;
    return false;
  }
}
