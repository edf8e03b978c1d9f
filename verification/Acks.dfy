/** The host's answer to an admitted caller, and the caller's check of it before it sends any input. */
module Acks {
  import opened Prelude
  import opened Terms
  import opened Heads
  import opened Policies
  import opened RoundTrip
  import opened Provenance
  import opened Roles
  import opened Views

  datatype HelloAck = HelloAck(stateVersion: nat, head: Option<SignedPolicyHead>, entry: Option<SignedEntry>)

  /** Whether a caller whose view is at `held` may go on with a call of `service` on `host`. */
  function AckAssigns(ack: HelloAck, root: NodeId, held: nat, service: ServiceName, host: NodeId): Result<bool, Error> {
    if ack.stateVersion <= held then Ok(true)
    else if ack.head.None? then Err(InvalidPolicy)
    else
      var head := ack.head.value;
      var _ :- VerifyHead(head, root);
      var _ :- Require(head.head.version == ack.stateVersion, InvalidPolicy);
      if ack.entry.None? then Ok(false)
      else
        var entry := ack.entry.value;
        var _ :- Require(entry.name == service, InvalidPolicy);
        var _ :- CheckEntryVersion(entry, head);
        var _ :- VerifyEntry(entry, root);
        Ok(host in entry.service.hosts)
  }

  /** What a host deciding under `signed` answers a caller whose view is at `held`. */
  function AckOf(signed: SignedPolicy, held: nat, service: ServiceName): HelloAck {
    var version := signed.head.head.version;
    if held < version
    then HelloAck(version, Some(signed.head), ViewEntry(Entries(signed.items), service))
    else HelloAck(version, None, None)
  }

  /**
    The ack of a host that holds a verified policy lets the call go on exactly when that policy is no
    newer than the caller's view, or assigns the service to the host.  Assignment also asks that the
    host is not banned; validation already rules a banned host out of every service.
   */
  lemma AckDecides(signed: SignedPolicy, root: NodeId, held: nat, service: ServiceName, host: NodeId)
    requires VerifyPolicy(signed, root).Ok?
    ensures ToPolicy(signed).Ok?
    ensures AckAssigns(AckOf(signed, held, service), root, held, service, host)
         == Ok(signed.head.head.version <= held || Assigns(ToPolicy(signed).value, service, host))
    ensures signed.head.head.version <= held ==>
      AckOf(signed, held, service).head.None? && AckOf(signed, held, service).entry.None?
  {
    VerifiedParts(signed, root);
    VerifiesIffSigned(signed.head, root);
    EntryDecides(signed, root, service, host);
  }

  lemma EntryDecides(signed: SignedPolicy, root: NodeId, service: ServiceName, host: NodeId)
    requires VerifyPolicy(signed, root).Ok? && ToPolicy(signed).Ok?
    ensures var entry := ViewEntry(Entries(signed.items), service);
      && (entry.Some? ==> CheckEntryVersion(entry.value, signed.head).Ok? && VerifyEntry(entry.value, root).Ok?)
      && (Assigns(ToPolicy(signed).value, service, host) <==> entry.Some? && host in entry.value.service.hosts)
  {
    VerifiedParts(signed, root);
    RebuiltRepresents(signed.head.head, signed.items);
    var p, entry := ToPolicy(signed).value, ViewEntry(Entries(signed.items), service);
    assert service in p.services ==> exists e :: e in Entries(signed.items) && e.name == service;
    if entry.Some? {
      assert ServiceItem(entry.value) in signed.items;
      assert ValidService(p.services[service], p.roles, p.bans);
    }
  }

  /** Whether the ack's head is, signature and all, the root's at the very version the ack names. */
  predicate HeadIsRoots(ack: HelloAck, root: NodeId) {
    && ack.head.Some? && ack.head.value.head.version == ack.stateVersion
    && ack.head.value.head.format == POLICY_V5
    && SignHead(ack.head.value.head, root) == Ok(ack.head.value)
  }

  /** Whether the ack's entry is, signature and all, the root's for `service`, and no newer than the ack. */
  predicate EntryIsRoots(ack: HelloAck, root: NodeId, service: ServiceName) {
    && ack.entry.Some? && ack.entry.value.version <= ack.stateVersion
    && ack.entry.value == SignEntry(root, ack.entry.value.version, service, ack.entry.value.service)
  }

  /**
    What any ack whatever, honest or not, gets for an answer.  One that is no newer than the caller's view
    lets the call go on.  A newer one does exactly when its head is the root's at its version and its entry
    the root's for that service, listing that host; it says the service is not there exactly when the head
    is the root's and the entry is missing or lists others; and any other is an error.
   */
  lemma AckAnswers(ack: HelloAck, root: NodeId, held: nat, service: ServiceName, host: NodeId)
    ensures ack.stateVersion <= held ==> AckAssigns(ack, root, held, service, host) == Ok(true)
    ensures ack.stateVersion > held ==>
      (AckAssigns(ack, root, held, service, host) == Ok(true)
       <==> HeadIsRoots(ack, root) && EntryIsRoots(ack, root, service) && host in ack.entry.value.service.hosts)
    ensures ack.stateVersion > held ==>
      (AckAssigns(ack, root, held, service, host) == Ok(false)
       <==> && HeadIsRoots(ack, root)
            && (ack.entry.None?
                || (EntryIsRoots(ack, root, service) && host !in ack.entry.value.service.hosts)))
  {
    if ack.head.Some? {
      VerifiesIffSigned(ack.head.value, root);
    }
    if ack.entry.Some? {
      EntryVerifiesIffSigned(ack.entry.value, root);
    }
  }

  /**
    A newer ack that gets an answer, yes or no, rests on a policy the root signed of the very version it
    names; and one that lets the call go on also on an entry the root signed, no newer, listing that host.
   */
  lemma AckNotForged(
    ack: HelloAck, root: NodeId, signings: seq<Signing>, held: nat, service: ServiceName, host: NodeId)
    requires AckAssigns(ack, root, held, service, host).Ok? && ack.stateVersion > held
    requires ack.head.Some? ==> Unforged(root, signings, ack.head.value.sig)
    requires ack.entry.Some? ==> Unforged(root, signings, ack.entry.value.sig)
    ensures exists s :: s in signings && SignWith(s.policy, root, s.previous).Ok?
                        && SignWith(s.policy, root, s.previous).value.head == ack.head.value
                        && s.policy.version == ack.stateVersion
    ensures AckAssigns(ack, root, held, service, host) == Ok(true) ==>
      exists s :: s in signings && SignWith(s.policy, root, s.previous).Ok?
                  && s.policy.version <= ack.stateVersion && Hosts(s.policy, service, host)
  {
    AckAnswers(ack, root, held, service, host);
    NoForgedHead(root, signings, ack.head.value);
    if AckAssigns(ack, root, held, service, host) == Ok(true) {
      NoForgedEntry(root, signings, ack.entry.value);
    }
  }
}
