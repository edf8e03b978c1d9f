/** Removal holds: over every run of edits until the matching restore, and at every gate. */
module Removal {
  import opened Prelude
  import opened Text
  import opened Terms
  import opened Policies
  import opened RoundTrip
  import opened Roles
  import opened Views
  import opened Edits
  import opened Histories
  import opened Admin
  import opened AdminRuns

  // ---------------------------------------------------------------------------
  // Over runs
  // ---------------------------------------------------------------------------

  /** Whether none of the commits from `i` up to `j` is the edit `edit`. */
  ghost predicate Never(history: seq<Commit>, i: nat, j: nat, edit: Edit)
    requires i <= j <= |history|
  {
    forall k :: i <= k < j ==> history[k].edit != edit
  }

  /** Exactly one edit lifts a node's ban, whatever else it changes. */
  lemma OnlyRestoreLiftsNode(root: NodeId, history: seq<Commit>, i: nat, node: NodeId)
    requires OneChain(root, history) && i < |history|
    requires node in PolicyAt(root, history, i).bans
    ensures node in PolicyAt(root, history, i + 1).bans <==> history[i].edit != LiftNode(node)
  {
    CommitChanges(root, history, i);
  }

  lemma OnlyRestoreLiftsPerson(root: NodeId, history: seq<Commit>, i: nat, person: Person)
    requires OneChain(root, history) && i < |history|
    requires person in PolicyAt(root, history, i).personBans
    ensures person in PolicyAt(root, history, i + 1).personBans <==> history[i].edit != LiftPerson(person)
  {
    CommitChanges(root, history, i);
  }

  lemma {:induction false} NodeStaysBanned(root: NodeId, history: seq<Commit>, i: nat, j: nat, node: NodeId)
    requires OneChain(root, history) && i <= j <= |history|
    requires node in PolicyAt(root, history, i).bans && Never(history, i, j, LiftNode(node))
    ensures node in PolicyAt(root, history, j).bans
  {
    if i < j {
      NodeStaysBanned(root, history, i, j - 1, node);
      OnlyRestoreLiftsNode(root, history, j - 1, node);
    }
  }

  lemma {:induction false} PersonStaysBanned(root: NodeId, history: seq<Commit>, i: nat, j: nat, person: Person)
    requires OneChain(root, history) && i <= j <= |history|
    requires person in PolicyAt(root, history, i).personBans && Never(history, i, j, LiftPerson(person))
    ensures person in PolicyAt(root, history, j).personBans
  {
    if i < j {
      PersonStaysBanned(root, history, i, j - 1, person);
      OnlyRestoreLiftsPerson(root, history, j - 1, person);
    }
  }

  lemma RemovalBans(root: NodeId, history: seq<Commit>, i: nat)
    requires OneChain(root, history) && i < |history|
    ensures history[i].edit.BanNode? ==> history[i].edit.node in PolicyAt(root, history, i + 1).bans
    ensures history[i].edit.BanPerson? ==> history[i].edit.person in PolicyAt(root, history, i + 1).personBans
  {
    CommitChanges(root, history, i);
  }

  lemma StoredVerifies(root: NodeId, history: seq<Commit>, j: nat)
    requires OneChain(root, history) && 0 < j <= |history|
    ensures VerifyPolicy(history[j - 1].signed, root).Ok?
    ensures PolicyAt(root, history, j) == Typed(root, Some(history[j - 1].signed))
  {
    HistoryIsSound(root, history, j);
  }

  // ---------------------------------------------------------------------------
  // At every gate
  // ---------------------------------------------------------------------------

  /** Whether nothing gets `caller`, presenting `principal` or nobody, in: no admission, no call, an empty view. */
  ghost predicate ShutOut(signed: SignedPolicy, p: Policy, caller: NodeId, principal: Option<Principal>) {
    && (principal.Some? ==> CheckAdmitted(p, caller, principal.value) == Err(Error.Banned))
    && (forall service :: Authorize(p, caller, principal, service) == Err(RemovedCaller))
    && (forall query :: ViewFor(signed, caller, principal, query).entries == [])
  }

  /** Whether `node` serves nothing and vouches for nothing. */
  ghost predicate ServesNothing(p: Policy, node: NodeId) {
    && !IsHost(p, node)
    && (forall service :: !Assigns(p, service, node) && !Hosts(p, service, node))
    && node !in p.directories
  }

  /** Even in a policy not validated, a banned node that is still listed hosts nothing; any other hosts as listed. */
  lemma ListedButBanned(p: Policy, service: ServiceName, node: NodeId)
    ensures node in p.bans ==> !IsHost(p, node) && !Assigns(p, service, node)
    ensures node !in p.bans && service in p.services && node in p.services[service].hosts ==>
      IsHost(p, node) && Assigns(p, service, node)
  {
  }

  lemma BannedNodeIsOut(signed: SignedPolicy, root: NodeId, node: NodeId, principal: Option<Principal>)
    requires VerifyPolicy(signed, root).Ok?
    requires node in Typed(root, Some(signed)).bans
    ensures ShutOut(signed, Typed(root, Some(signed)), node, principal)
    ensures ServesNothing(Typed(root, Some(signed)), node)
  {
    VerifiedParts(signed, root);
    BansAgree(signed, node, principal);
    var p := Typed(root, Some(signed));
    forall service ensures !Hosts(p, service, node) {
      assert service in p.services ==> ValidService(p.services[service], p.roles, p.bans);
    }
  }

  lemma BannedPersonIsOut(
    signed: SignedPolicy, root: NodeId, person: Person, principal: Principal, caller: NodeId)
    requires VerifyPolicy(signed, root).Ok?
    requires person in Typed(root, Some(signed)).personBans && PersonMatches(person, principal)
    ensures ShutOut(signed, Typed(root, Some(signed)), caller, Some(principal))
  {
    VerifiedParts(signed, root);
    BansAgree(signed, caller, Some(principal));
    assert BansPerson(Typed(root, Some(signed)), principal);
  }

  /**
    After a node is removed, every later version signed without that node's restore, through whatever
    edits and however interleaved, shuts it out, whoever logs in there or nobody, and the node hosts no
    service and is no directory.
   */
  lemma RemovedNodeStaysOut(
    root: NodeId, history: seq<Commit>, i: nat, j: nat, node: NodeId, principal: Option<Principal>)
    requires OneChain(root, history) && i < j <= |history|
    requires history[i].edit == BanNode(node) && Never(history, i + 1, j, LiftNode(node))
    ensures Sound(root, StoredAt(history, j))
    ensures ShutOut(history[j - 1].signed, PolicyAt(root, history, j), node, principal)
    ensures ServesNothing(PolicyAt(root, history, j), node)
  {
    RemovalBans(root, history, i);
    NodeStaysBanned(root, history, i + 1, j, node);
    StoredVerifies(root, history, j);
    BannedNodeIsOut(history[j - 1].signed, root, node, principal);
  }

  /**
    After a person is removed, every later version signed without that person's restore shuts out every
    principal who is that person, from every node.
   */
  lemma RemovedPersonStaysOut(
    root: NodeId, history: seq<Commit>, i: nat, j: nat, person: Person, principal: Principal, caller: NodeId)
    requires OneChain(root, history) && i < j <= |history|
    requires history[i].edit == BanPerson(person) && Never(history, i + 1, j, LiftPerson(person))
    requires PersonMatches(person, principal)
    ensures Sound(root, StoredAt(history, j))
    ensures ShutOut(history[j - 1].signed, PolicyAt(root, history, j), caller, Some(principal))
  {
    RemovalBans(root, history, i);
    PersonStaysBanned(root, history, i + 1, j, person);
    StoredVerifies(root, history, j);
    BannedPersonIsOut(history[j - 1].signed, root, person, principal, caller);
  }

  /**
    A restore lifts the ban and no more: right after it the node still hosts nothing and is no directory,
    until it is added again.
   */
  lemma RestoredNodeServesNothing(root: NodeId, history: seq<Commit>, i: nat, node: NodeId)
    requires OneChain(root, history) && i < |history| && history[i].edit == LiftNode(node)
    ensures node !in PolicyAt(root, history, i + 1).bans
    ensures ServesNothing(PolicyAt(root, history, i + 1), node)
  {
    CommitChanges(root, history, i);
    var p := PolicyAt(root, history, i);
    assert node in p.bans;
    if i > 0 {
      StoredVerifies(root, history, i);
      BannedNodeIsOut(history[i - 1].signed, root, node, None);
    }
    var q := PolicyAt(root, history, i + 1);
    forall service ensures !Hosts(q, service, node) {
      assert !Hosts(p, service, node);
    }
  }

  /** Who a removed person is does not depend on how the admin or the provider wrote the email. */
  lemma PersonHowever(issuer: Issuer, written: string, principal: Principal)
    ensures PersonMatches(NewPerson(issuer, written), principal)
            <==> principal.issuer == issuer && principal.email.Some?
                 && Lower(principal.email.value) == Lower(Trim(written))
  {
  }

  /** However an admin writes an email, the person is the same, so that one restore undoes one removal. */
  lemma OnePersonOneBan(issuer: Issuer, written: string, again: string)
    ensures NewPerson(issuer, written) == NewPerson(issuer, again) <==> Lower(Trim(written)) == Lower(Trim(again))
    ensures !Blank(issuer) && !Blank(written) ==> ValidPerson(NewPerson(issuer, written))
  {
    var email := Trim(written);
    LowerTwice(email);
    var _, _ := TrimCuts(written);
    if email != [] {
      BlankIff(Lower(email));
      assert Lower(email)[0] in Lower(email) && Lower(email)[0] == LowerChar(email[0]);
    }
  }
}
