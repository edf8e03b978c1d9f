/** What runs of edits undo, what they leave alone, and which service entries they re-sign. */
module EditRuns {
  import opened Prelude
  import opened Terms
  import opened Policies
  import opened Provenance
  import opened Edits
  import opened Histories
  import opened AdminRuns

  // ---------------------------------------------------------------------------
  // Parts of the policy
  // ---------------------------------------------------------------------------

  datatype Part = ServicePart | RolePart | IssuerPart | DirectoryPart | NodePart | PersonPart | SettingsPart

  /** Which part of the policy an edit is about. */
  function PartOf(edit: Edit): Part {
    match edit
    case Init(_, _) => IssuerPart
    case AddService(_, _) => ServicePart
    case SetService(_, _) => ServicePart
    case RemoveService(_) => ServicePart
    case SetRole(_, _) => RolePart
    case RemoveRole(_) => RolePart
    case SetIssuer(_, _) => IssuerPart
    case RemoveIssuer(_) => IssuerPart
    case AddDirectory(_) => DirectoryPart
    case RemoveDirectory(_) => DirectoryPart
    case BanPerson(_) => PersonPart
    case LiftPerson(_) => PersonPart
    case BanNode(_) => NodePart
    case LiftNode(_) => NodePart
    case ChangeSettings(_, _) => SettingsPart
  }

  /** Banning a node also reaches into hosts and directories. */
  predicate Touches(edit: Edit, part: Part) {
    PartOf(edit) == part || (edit.BanNode? && part in {ServicePart, DirectoryPart})
  }

  predicate SamePart(part: Part, a: Policy, b: Policy) {
    match part
    case ServicePart => a.services == b.services
    case RolePart => a.roles == b.roles
    case IssuerPart => a.issuers == b.issuers
    case DirectoryPart => a.directories == b.directories
    case NodePart => a.bans == b.bans
    case PersonPart => a.personBans == b.personBans
    case SettingsPart => a.settings == b.settings
  }

  ghost predicate Untouched(history: seq<Commit>, i: nat, j: nat, part: Part)
    requires i <= j <= |history|
  {
    forall k :: i <= k < j ==> !Touches(history[k].edit, part)
  }

  lemma CommitKeepsPart(root: NodeId, history: seq<Commit>, i: nat, part: Part)
    requires OneChain(root, history) && i < |history| && !Touches(history[i].edit, part)
    ensures SamePart(part, PolicyAt(root, history, i), PolicyAt(root, history, i + 1))
  {
    CommitChanges(root, history, i);
    EditKeepsPart(history[i].edit, PolicyAt(root, history, i), PolicyAt(root, history, i + 1), part);
  }

  lemma EditKeepsPart(edit: Edit, p: Policy, q: Policy, part: Part)
    requires Changed(edit, p).Ok? && SameContent(Changed(edit, p).value, q)
    requires !Touches(edit, part)
    ensures SamePart(part, p, q)
  {
  }

  /** Over any run of commits none of which is about a part, that part stays as it was. */
  lemma {:induction false} PartStays(root: NodeId, history: seq<Commit>, i: nat, j: nat, part: Part)
    requires OneChain(root, history) && i <= j <= |history| && Untouched(history, i, j, part)
    ensures SamePart(part, PolicyAt(root, history, i), PolicyAt(root, history, j))
  {
    if i < j {
      PartStays(root, history, i, j - 1, part);
      CommitKeepsPart(root, history, j - 1, part);
    }
  }

  // ---------------------------------------------------------------------------
  // Undoing
  // ---------------------------------------------------------------------------

  /** Whether `second` is how an admin takes `first`, made over `p`, back. */
  predicate TakesBack(second: Edit, first: Edit, p: Policy) {
    match first
    case AddService(name, _) => second == RemoveService(name)
    case SetRole(role, _) => role !in p.roles && second == RemoveRole(role)
    case SetIssuer(issuer, _) => issuer !in p.issuers && second == RemoveIssuer(issuer)
    case AddDirectory(node) => second == RemoveDirectory(node)
    case BanPerson(person) => second == LiftPerson(person)
    case BanNode(node) => second == LiftNode(node)
    case ChangeSettings(_, _) => second == ChangeSettings(Some(p.settings.beatSecs), Some(p.settings.freshSecs))
    case _ => false
  }

  lemma RetainLast(nodes: seq<NodeId>, node: NodeId)
    requires node !in nodes
    ensures Retain(nodes + [node], node) == nodes
  {
    assert (nodes + [node])[..|nodes|] == nodes;
  }

  /** Taking an edit back over any policy with the same part as the edit left. */
  lemma TakenBack(first: Edit, second: Edit, p: Policy, q: Policy)
    requires Changed(first, p).Ok? && TakesBack(second, first, p)
    requires SamePart(PartOf(first), Changed(first, p).value, q) && Changed(second, q).Ok?
    ensures SamePart(PartOf(first), p, Changed(second, q).value)
  {
    match first
    case AddService(name, change) => assert q.services - {name} == p.services;
    case SetRole(role, _) => assert q.roles - {role} == p.roles;
    case SetIssuer(issuer, _) => assert q.issuers - {issuer} == p.issuers;
    case AddDirectory(node) => RetainLast(p.directories, node);
    case BanPerson(person) => assert q.personBans - {person} == p.personBans;
    case BanNode(node) => assert q.bans - {node} == p.bans;
    case _ =>
  }

  /**
    However many other commits come in between, interleaved or not, as long as none is about the same part:
    adding a service, defining a role, trusting an issuer, listing a directory, removing a person or a node,
    or changing the settings, and later taking that back, leaves the part exactly as before.
   */
  lemma TakenBackOverRun(root: NodeId, history: seq<Commit>, i: nat, j: nat)
    requires OneChain(root, history) && i < j < |history|
    requires TakesBack(history[j].edit, history[i].edit, PolicyAt(root, history, i))
    requires Untouched(history, i + 1, j, PartOf(history[i].edit))
    ensures SamePart(PartOf(history[i].edit), PolicyAt(root, history, i), PolicyAt(root, history, j + 1))
  {
    CommitChanges(root, history, i);
    PartStays(root, history, i + 1, j, PartOf(history[i].edit));
    CommitChanges(root, history, j);
    TakenBack(history[i].edit, history[j].edit, PolicyAt(root, history, i), PolicyAt(root, history, j));
  }

  // ---------------------------------------------------------------------------
  // Entries that need no new signature
  // ---------------------------------------------------------------------------

  /** Whether an edit of `p` leaves the service `name` as it is. */
  predicate Leaves(edit: Edit, name: ServiceName, p: Policy) {
    match edit
    case AddService(n, _) => n != name
    case SetService(n, change) =>
      n != name || (name in p.services && change.Apply(p.services[name]) == p.services[name])
    case RemoveService(n) => n != name
    case BanNode(node) => name in p.services ==> node !in p.services[name].hosts
    case _ => true
  }

  /** Whether commit `k` leaves the service `name` as it finds it. */
  ghost predicate LeavesAt(root: NodeId, history: seq<Commit>, name: ServiceName, k: nat)
    requires OneChain(root, history) && k < |history|
  {
    Leaves(history[k].edit, name, PolicyAt(root, history, k))
  }

  lemma LeavesService(root: NodeId, history: seq<Commit>, name: ServiceName, i: nat)
    requires OneChain(root, history) && i < |history|
    requires name in PolicyAt(root, history, i).services
    requires LeavesAt(root, history, name, i)
    ensures name in PolicyAt(root, history, i + 1).services
    ensures PolicyAt(root, history, i + 1).services[name] == PolicyAt(root, history, i).services[name]
  {
    CommitChanges(root, history, i);
    EditLeavesService(history[i].edit, PolicyAt(root, history, i), PolicyAt(root, history, i + 1), name);
  }

  lemma EditLeavesService(edit: Edit, p: Policy, q: Policy, name: ServiceName)
    requires Changed(edit, p).Ok? && SameContent(Changed(edit, p).value, q)
    requires name in p.services && Leaves(edit, name, p)
    ensures name in q.services && q.services[name] == p.services[name]
  {
  }

  lemma {:induction false} ServiceStays(root: NodeId, history: seq<Commit>, name: ServiceName, i: nat, j: nat)
    requires OneChain(root, history) && i <= j <= |history|
    requires name in PolicyAt(root, history, i).services
    requires forall k :: i <= k < j ==> LeavesAt(root, history, name, k)
    ensures name in PolicyAt(root, history, j).services
    ensures PolicyAt(root, history, j).services[name] == PolicyAt(root, history, i).services[name]
  {
    if i < j {
      ServiceStays(root, history, name, i, j - 1);
      assert LeavesAt(root, history, name, j - 1);
      LeavesService(root, history, name, j - 1);
    }
  }

  /** Whether the policy commit `i` stored has `service` under `name`. */
  ghost predicate Serves(root: NodeId, history: seq<Commit>, name: ServiceName, service: Service, i: nat)
    requires OneChain(root, history) && i < |history|
  {
    var p := PolicyAt(root, history, i + 1);
    name in p.services && p.services[name] == service
  }

  lemma EntryOfBody(root: NodeId, history: seq<Commit>, name: ServiceName, service: Service, i: nat, j: nat)
    requires OneChain(root, history) && i <= j < |history|
    requires forall k :: i <= k <= j ==> Serves(root, history, name, service, k)
    ensures Kept(history[i].signed.items, name).Some?
    ensures Kept(history[j].signed.items, name) == Kept(history[i].signed.items, name)
  {
    HistoryIsAChain(root, history);
    var policies, signed := PoliciesOf(root, history), SignedOf(history);
    assert Serves(root, history, name, service, i) && Serves(root, history, name, service, j);
    forall k: nat | i <= k <= j ensures SameBody(policies, name, j, k) {
      assert Serves(root, history, name, service, k);
    }
    EntryKeptIff(root, policies, signed, name, i, j);
  }

  /**
    The admin re-signs only what changed: over any run of commits that leave a service as it is, by naming
    others, by setting it to what it is, or by removing nodes that do not host it, every later policy carries
    the very same signed entry for it, with its old version.
   */
  lemma EntryStays(root: NodeId, history: seq<Commit>, name: ServiceName, i: nat, j: nat)
    requires OneChain(root, history) && i <= j < |history|
    requires name in PolicyAt(root, history, i + 1).services
    requires forall k :: i < k <= j ==> LeavesAt(root, history, name, k)
    ensures Kept(history[i].signed.items, name).Some?
    ensures Kept(history[j].signed.items, name) == Kept(history[i].signed.items, name)
  {
    var service := PolicyAt(root, history, i + 1).services[name];
    forall k | i <= k <= j ensures Serves(root, history, name, service, k) {
      ServiceStays(root, history, name, i + 1, k + 1);
    }
    EntryOfBody(root, history, name, service, i, j);
  }

  /** Setting a service again to what it was just set to, whatever ran in between, signs nothing new. */
  lemma SettingAgainSignsNothing(root: NodeId, history: seq<Commit>, name: ServiceName, i: nat, j: nat)
    requires OneChain(root, history) && i < j < |history|
    requires history[i].edit.SetService? && history[i].edit.name == name && history[j].edit == history[i].edit
    requires forall k :: i < k < j ==> LeavesAt(root, history, name, k)
    ensures Kept(history[i].signed.items, name).Some?
    ensures Kept(history[j].signed.items, name) == Kept(history[i].signed.items, name)
  {
    SetLeavesIt(root, history, name, i);
    ServiceStays(root, history, name, i + 1, j);
    EntryStays(root, history, name, i, j);
  }

  lemma SetLeavesIt(root: NodeId, history: seq<Commit>, name: ServiceName, i: nat)
    requires OneChain(root, history) && i < |history|
    requires history[i].edit.SetService? && history[i].edit.name == name
    ensures var p := PolicyAt(root, history, i + 1);
      name in p.services && history[i].edit.edit.Apply(p.services[name]) == p.services[name]
  {
    CommitChanges(root, history, i);
  }
}
