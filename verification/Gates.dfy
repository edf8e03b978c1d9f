/** Who gets in, built up matcher by matcher and key by key, at both gates. */
module Gates {
  import opened Prelude
  import opened Text
  import opened Terms
  import opened Roles

  /** `p` with `service` open to one role of these matchers, and no other role. */
  function Opened(p: Policy, service: ServiceName, role: RoleName, matchers: seq<Matcher>): Policy {
    p.(roles := map[role := matchers], services := p.services[service := Service("", [role], [])])
  }

  /** Whether `principal` may call `service` from `caller` when its one role has these matchers. */
  predicate Passes(
    p: Policy, caller: NodeId, principal: Principal, service: ServiceName, role: RoleName, matchers: seq<Matcher>)
  {
    Authorize(Opened(p, service, role, matchers), caller, Some(principal), service).Ok?
  }

  /** With one role the two gates decide alike. */
  lemma GatesAgree(
    p: Policy, caller: NodeId, principal: Principal, service: ServiceName, role: RoleName, matchers: seq<Matcher>)
    ensures CheckAdmitted(Opened(p, service, role, matchers), caller, principal).Ok?
            <==> Passes(p, caller, principal, service, role, matchers)
  {
    var q := Opened(p, service, role, matchers);
    AuthorizeIff(q, caller, Some(principal), service);
    AdmittedIff(q, caller, principal);
    assert role in q.services[service].allow;
  }

  /** A caller may call a service exactly when one of the defined roles it allows would do alone. */
  lemma OneRoleDecides(p: Policy, caller: NodeId, principal: Principal, service: ServiceName)
    ensures Authorize(p, caller, Some(principal), service).Ok?
            <==> && service in p.services
                 && exists role :: role in p.services[service].allow && role in p.roles
                                   && Passes(p, caller, principal, service, role, p.roles[role])
  {
    forall role | role in p.roles
      ensures Passes(p, caller, principal, service, role, p.roles[role])
              <==> !(caller in p.bans || BansPerson(p, principal)) && RoleAdmits(p, role, Some(principal))
    {
      PassesIs(p, caller, principal, service, role, p.roles[role]);
    }
  }

  lemma PassesIs(
    p: Policy, caller: NodeId, principal: Principal, service: ServiceName, role: RoleName, matchers: seq<Matcher>)
    ensures Passes(p, caller, principal, service, role, matchers)
            <==> !(caller in p.bans || BansPerson(p, principal)) && Admits(Some(matchers), Some(principal))
  {
    var q := Opened(p, service, role, matchers);
    assert Defined(q, role) == Some(matchers);
    assert BansPerson(q, principal) == BansPerson(p, principal);
  }

  /** And is in the network exactly when any role defined would do alone. */
  lemma OneRoleAdmits(p: Policy, caller: NodeId, principal: Principal, service: ServiceName)
    ensures CheckAdmitted(p, caller, principal).Ok?
            <==> exists role :: role in p.roles && Passes(p, caller, principal, service, role, p.roles[role])
  {
    forall role | role in p.roles
      ensures Passes(p, caller, principal, service, role, p.roles[role])
              <==> !(caller in p.bans || BansPerson(p, principal)) && Admits(Some(p.roles[role]), Some(principal))
    {
      PassesIs(p, caller, principal, service, role, p.roles[role]);
    }
    AdmittedIff(p, caller, principal);
  }

  /** A role admits exactly those whom one of its matchers admits alone. */
  lemma OneMatcherDecides(
    p: Policy, caller: NodeId, principal: Principal, service: ServiceName, role: RoleName, matchers: seq<Matcher>)
    ensures Passes(p, caller, principal, service, role, matchers)
            <==> exists m :: m in matchers && Passes(p, caller, principal, service, role, [m])
  {
    PassesIs(p, caller, principal, service, role, matchers);
    forall m: Matcher
      ensures Passes(p, caller, principal, service, role, [m])
              <==> !(caller in p.bans || BansPerson(p, principal)) && Admits(Some([m]), Some(principal))
    {
      PassesIs(p, caller, principal, service, role, [m]);
    }
    forall m: Matcher
      ensures Admits(Some([m]), Some(principal)) <==> principal.email.Some? && MatcherMatches(m, principal)
    {
      assert m in [m];
    }
  }

  lemma OneMatcherIs(
    p: Policy, caller: NodeId, principal: Principal, service: ServiceName, role: RoleName, m: Matcher)
    ensures Passes(p, caller, principal, service, role, [m])
            <==> && !(caller in p.bans || BansPerson(p, principal))
                 && principal.email.Some? && MatcherMatches(m, principal)
  {
    PassesIs(p, caller, principal, service, role, [m]);
    assert m in [m];
  }

  /**
    A matcher with no key but its issuer admits exactly the issuer's own principals with a verified email,
    unless the node was removed or the person was, under the issuer's name and whatever the case of the email.
   */
  lemma BareMatcherAdmits(
    p: Policy, caller: NodeId, principal: Principal, service: ServiceName, role: RoleName, issuer: Issuer)
    ensures Passes(p, caller, principal, service, role, [Matcher(issuer, None, None, None)])
            <==> && principal.issuer == issuer && principal.email.Some? && caller !in p.bans
                 && forall b :: b in p.personBans && b.issuer == issuer ==>
                      Lower(b.email) != Lower(principal.email.value)
  {
    OneMatcherIs(p, caller, principal, service, role, Matcher(issuer, None, None, None));
    if principal.issuer == issuer && principal.email.Some? {
      assert BansPerson(p, principal) <==>
        exists b :: b in p.personBans && b.issuer == issuer && Lower(b.email) == Lower(principal.email.value);
    }
  }

  /** A role whose matchers all name other issuers admits nobody, at either gate. */
  lemma OtherIssuersAdmitNobody(
    p: Policy, caller: NodeId, principal: Principal, service: ServiceName, role: RoleName, matchers: seq<Matcher>)
    requires forall m :: m in matchers ==> m.issuer != principal.issuer
    ensures Authorize(Opened(p, service, role, matchers), caller, Some(principal), service).Err?
    ensures CheckAdmitted(Opened(p, service, role, matchers), caller, principal).Err?
  {
    PassesIs(p, caller, principal, service, role, matchers);
    GatesAgree(p, caller, principal, service, role, matchers);
  }

  /**
    Adding a key to a matcher admits exactly those it admitted before who hold that key: the group exactly,
    the organisation and the address in any letter case, and for a domain any address with something before
    its last `@` and that domain, in any case, after it.
   */
  lemma KeysNarrow(
    p: Policy, caller: NodeId, principal: Principal, service: ServiceName, role: RoleName, m: Matcher, key: string)
    ensures m.group.None? ==>
      (Passes(p, caller, principal, service, role, [m.(group := Some(key))])
       <==> Passes(p, caller, principal, service, role, [m]) && key in principal.groups)
    ensures m.org.None? ==>
      (Passes(p, caller, principal, service, role, [m.(org := Some(key))])
       <==> Passes(p, caller, principal, service, role, [m])
            && principal.org.Some? && Lower(principal.org.value) == Lower(key))
    ensures m.email.None? ==>
      (Passes(p, caller, principal, service, role, [m.(email := Some(Exact(key)))])
       <==> Passes(p, caller, principal, service, role, [m])
            && principal.email.Some? && Lower(principal.email.value) == Lower(key))
    ensures m.email.None? ==>
      (Passes(p, caller, principal, service, role, [m.(email := Some(Domain(key)))])
       <==> Passes(p, caller, principal, service, role, [m])
            && principal.email.Some? && EndsInDomain(principal.email.value, key))
  {
    OneMatcherIs(p, caller, principal, service, role, m);
    OneMatcherIs(p, caller, principal, service, role, m.(group := Some(key)));
    OneMatcherIs(p, caller, principal, service, role, m.(org := Some(key)));
    OneMatcherIs(p, caller, principal, service, role, m.(email := Some(Exact(key))));
    OneMatcherIs(p, caller, principal, service, role, m.(email := Some(Domain(key))));
    if principal.email.Some? {
      DomainIs(principal.email.value, key);
    }
  }

  /** Whether something stands before the last `@` of `email`, and `domain` in some letter case after it. */
  predicate EndsInDomain(email: string, domain: string) {
    exists i :: 0 < i < |email| && email[i] == '@' && '@' !in email[i + 1..] && Lower(email[i + 1..]) == Lower(domain)
  }

  lemma DomainIs(email: string, domain: string)
    ensures PatternMatches(Domain(domain), email) <==> EndsInDomain(email, domain)
  {
    if EndsInDomain(email, domain) {
      var i :| 0 < i < |email| && email[i] == '@' && '@' !in email[i + 1..] && Lower(email[i + 1..]) == Lower(domain);
      LastIs(email, '@', i);
    }
    var i := AfterLast(email, '@');
    if i > 1 {
      assert email[i - 1] == '@' && email[i - 1 + 1..] == email[i..];
    }
  }
}
