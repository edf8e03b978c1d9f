/** Who a role admits: an OR of matchers over a verified principal. */
module Roles {
  import opened Prelude
  import opened Text
  import opened Terms

  predicate PatternMatches(pattern: EmailPattern, email: string) {
    match pattern
    case Exact(want) => EqIgnoreCase(email, want)
    case Domain(domain) =>
      var i := AfterLast(email, '@');
      i > 1 && EqIgnoreCase(email[i..], domain)
  }

  /** Every key present must hold; the issuer always. */
  predicate MatcherMatches(m: Matcher, p: Principal) {
    && p.issuer == m.issuer
    && (m.email.Some? ==> p.email.Some? && PatternMatches(m.email.value, p.email.value))
    && (m.org.Some? ==> p.org.Some? && EqIgnoreCase(p.org.value, m.org.value))
    && (m.group.Some? ==> m.group.value in p.groups)
  }

  /** No role admits a caller without a verified email, whatever its matchers say. */
  predicate Admits(matchers: Option<seq<Matcher>>, principal: Option<Principal>) {
    && matchers.Some? && principal.Some?
    && principal.value.email.Some?
    && exists m :: m in matchers.value && MatcherMatches(m, principal.value)
  }

  predicate PersonMatches(person: Person, principal: Principal) {
    && principal.issuer == person.issuer
    && principal.email.Some? && EqIgnoreCase(principal.email.value, person.email)
  }

  function NewPerson(issuer: Issuer, email: string): Person {
    Person(issuer, Lower(Trim(email)))
  }

  function Defined(p: Policy, role: RoleName): Option<seq<Matcher>> {
    if role in p.roles then Some(p.roles[role]) else None
  }

  predicate RoleAdmits(p: Policy, role: RoleName, principal: Option<Principal>) {
    Admits(Defined(p, role), principal)
  }

  predicate AnyRoleAdmits(p: Policy, principal: Principal) {
    exists r :: r in p.roles && Admits(Some(p.roles[r]), Some(principal))
  }

  predicate BansPerson(p: Policy, principal: Principal) {
    exists person :: person in p.personBans && PersonMatches(person, principal)
  }

  predicate Hosts(p: Policy, service: ServiceName, host: NodeId) {
    service in p.services && host in p.services[service].hosts
  }

  predicate IsHost(p: Policy, node: NodeId) {
    node !in p.bans && exists s :: s in p.services && node in p.services[s].hosts
  }

  predicate Assigns(p: Policy, service: ServiceName, host: NodeId) {
    host !in p.bans && Hosts(p, service, host)
  }

  // ---------------------------------------------------------------------------
  // The gates
  // ---------------------------------------------------------------------------

  datatype Refusal =
    | RemovedCaller
    | UnknownService(service: ServiceName)
    | NobodyAllowed(service: ServiceName)
    | NotInRole(service: ServiceName, allow: seq<RoleName>, who: Option<string>)

  function FirstAdmitting(p: Policy, allow: seq<RoleName>, principal: Option<Principal>): (r: Option<RoleName>)
    ensures r.Some? ==> exists i :: 0 <= i < |allow| && allow[i] == r.value && RoleAdmits(p, allow[i], principal)
                                    && forall j :: 0 <= j < i ==> !RoleAdmits(p, allow[j], principal)
    ensures r.None? ==> forall role :: role in allow ==> !RoleAdmits(p, role, principal)
  {
    if allow == [] then None
    else if RoleAdmits(p, allow[0], principal) then Some(allow[0])
    else
      assert allow == [allow[0]] + allow[1..];
      FirstAdmitting(p, allow[1..], principal)
  }

  /** May this caller call this service? */
  function Authorize(p: Policy, caller: NodeId, principal: Option<Principal>, service: ServiceName)
    : Result<RoleName, Refusal>
  {
    if caller in p.bans || (principal.Some? && BansPerson(p, principal.value)) then Err(RemovedCaller)
    else if service !in p.services then Err(UnknownService(service))
    else if p.services[service].allow == [] then Err(NobodyAllowed(service))
    else
      var allow := p.services[service].allow;
      var role := FirstAdmitting(p, allow, principal);
      if role.Some? then Ok(role.value)
      else
        Err(NotInRole(service, allow,
                      if principal.None? then None
                      else if principal.value.email.Some? then principal.value.email
                      else Some(principal.value.subject)))
  }

  /** Is this caller in the network right now? */
  function CheckAdmitted(p: Policy, caller: NodeId, principal: Principal): Result<(), Error> {
    var _ :- Require(caller !in p.bans, Error.Banned);
    var _ :- Require(principal.email.Some?, NoVerifiedEmail);
    var _ :- Require(!BansPerson(p, principal), Error.Banned);
    Require(AnyRoleAdmits(p, principal), NoRole)
  }

  /** Who may call, said without an order of checks. */
  predicate MayCall(p: Policy, caller: NodeId, principal: Option<Principal>, service: ServiceName) {
    && principal.Some? && principal.value.email.Some?
    && caller !in p.bans
    && (forall person :: person in p.personBans ==> !PersonMatches(person, principal.value))
    && service in p.services
    && exists r, m :: r in p.services[service].allow && r in p.roles && m in p.roles[r]
                      && MatcherMatches(m, principal.value)
  }

  /** The decision is that rule, and it names the first listed role that admits the caller. */
  lemma AuthorizeIff(p: Policy, caller: NodeId, principal: Option<Principal>, service: ServiceName)
    ensures Authorize(p, caller, principal, service).Ok? <==> MayCall(p, caller, principal, service)
    ensures Authorize(p, caller, principal, service).Ok? ==>
      exists i :: 0 <= i < |p.services[service].allow|
                  && Authorize(p, caller, principal, service) == Ok(p.services[service].allow[i])
                  && RoleAdmits(p, p.services[service].allow[i], principal)
                  && forall j :: 0 <= j < i ==> !RoleAdmits(p, p.services[service].allow[j], principal)
  {
  }

  /** What a refused caller learns: a removed one is told only that, and only a known service's roles are named. */
  lemma RefusalSaysWhy(p: Policy, caller: NodeId, principal: Option<Principal>, service: ServiceName)
    requires Authorize(p, caller, principal, service).Err?
    ensures var (why, removed) := (Authorize(p, caller, principal, service).error,
                                   caller in p.bans || (principal.Some? && BansPerson(p, principal.value)));
      && (why.RemovedCaller? <==> removed)
      && (why.UnknownService? <==> !removed && service !in p.services)
      && (why.NobodyAllowed? <==> !removed && service in p.services && p.services[service].allow == [])
      && (why.NotInRole? <==> !removed && service in p.services && p.services[service].allow != [])
      && (why.NotInRole? ==>
            && why.allow == p.services[service].allow
            && (forall r :: r in why.allow ==> !RoleAdmits(p, r, principal))
            && (principal.None? ==> why.who.None?)
            && (principal.Some? && principal.value.email.Some? ==> why.who == principal.value.email)
            && (principal.Some? && principal.value.email.None? ==> why.who == Some(principal.value.subject)))
  {
  }

  /** Admission is the ban check and the role check for a caller with a verified email. */
  lemma AdmittedIff(p: Policy, caller: NodeId, principal: Principal)
    ensures CheckAdmitted(p, caller, principal).Ok? <==>
      && caller !in p.bans && principal.email.Some?
      && (forall person :: person in p.personBans ==> !PersonMatches(person, principal))
      && exists r, m :: r in p.roles && m in p.roles[r] && MatcherMatches(m, principal)
    ensures CheckAdmitted(p, caller, principal) == Err(Error.Banned) <==>
      caller in p.bans || (principal.email.Some? && BansPerson(p, principal))
    ensures CheckAdmitted(p, caller, principal) == Err(NoVerifiedEmail) <==>
      caller !in p.bans && principal.email.None?
    ensures CheckAdmitted(p, caller, principal) == Err(NoRole) <==>
      caller !in p.bans && principal.email.Some? && !BansPerson(p, principal) && !AnyRoleAdmits(p, principal)
  {
  }

  /** Whoever may call some service passes admission: the call gate is never the looser one. */
  lemma AuthorizedIsAdmitted(p: Policy, caller: NodeId, principal: Principal, service: ServiceName)
    requires Authorize(p, caller, Some(principal), service).Ok?
    ensures CheckAdmitted(p, caller, principal).Ok?
  {
  }

  // ---------------------------------------------------------------------------
  // Letter case
  // ---------------------------------------------------------------------------

  predicate SameText(a: Option<string>, b: Option<string>) {
    (a.None? && b.None?) || (a.Some? && b.Some? && EqIgnoreCase(a.value, b.value))
  }

  /** The same identity as two providers, or one on two days, might spell it. */
  predicate SameButCase(a: Principal, b: Principal) {
    a.issuer == b.issuer && a.groups == b.groups && SameText(a.email, b.email) && SameText(a.org, b.org)
  }

  lemma LowerTail(s: string, i: nat)
    requires i <= |s|
    ensures Lower(s)[i..] == Lower(s[i..])
  {
  }

  lemma LowerHasNoNew(s: string)
    requires '@' !in s
    ensures '@' !in Lower(s)
  {
  }

  lemma LowerKeepsLast(s: string)
    ensures AfterLast(Lower(s), '@') == AfterLast(s, '@')
  {
    var i := AfterLast(s, '@');
    if i > 0 {
      LowerTail(s, i);
      LowerHasNoNew(s[i..]);
      LastIs(Lower(s), '@', i - 1);
    } else {
      LowerHasNoNew(s);
    }
  }

  lemma PatternIgnoresCase(pattern: EmailPattern, a: string, b: string)
    requires EqIgnoreCase(a, b)
    ensures PatternMatches(pattern, a) == PatternMatches(pattern, b)
  {
    LowerKeepsLast(a);
    LowerKeepsLast(b);
    var i := AfterLast(a, '@');
    LowerTail(a, i);
    LowerTail(b, i);
  }

  lemma MatcherIgnoresCase(m: Matcher, a: Principal, b: Principal)
    requires SameButCase(a, b)
    ensures MatcherMatches(m, a) == MatcherMatches(m, b)
  {
    if m.email.Some? && a.email.Some? {
      PatternIgnoresCase(m.email.value, a.email.value, b.email.value);
    }
  }

  lemma RolesIgnoreCase(matchers: Option<seq<Matcher>>, a: Principal, b: Principal)
    requires SameButCase(a, b)
    ensures Admits(matchers, Some(a)) == Admits(matchers, Some(b))
  {
    forall m ensures MatcherMatches(m, a) == MatcherMatches(m, b) {
      MatcherIgnoresCase(m, a, b);
    }
  }

  lemma {:induction false} FirstIgnoresCase(p: Policy, allow: seq<RoleName>, a: Principal, b: Principal)
    requires SameButCase(a, b)
    ensures FirstAdmitting(p, allow, Some(a)) == FirstAdmitting(p, allow, Some(b))
  {
    if allow != [] {
      RolesIgnoreCase(Defined(p, allow[0]), a, b);
      FirstIgnoresCase(p, allow[1..], a, b);
    }
  }

  /**
    The letter case of an email or an organisation decides nothing, at either gate: it neither wins or loses
    a role nor sidesteps a ban.
   */
  lemma CaseDoesNotMatter(p: Policy, caller: NodeId, a: Principal, b: Principal, service: ServiceName)
    requires SameButCase(a, b)
    ensures CheckAdmitted(p, caller, a) == CheckAdmitted(p, caller, b)
    ensures var (x, y) := (Authorize(p, caller, Some(a), service), Authorize(p, caller, Some(b), service));
      && (x.Ok? <==> y.Ok?) && (x.Ok? ==> x == y)
      && (x == Err(RemovedCaller) <==> y == Err(RemovedCaller))
  {
    forall r | r in p.roles ensures Admits(Some(p.roles[r]), Some(a)) == Admits(Some(p.roles[r]), Some(b)) {
      RolesIgnoreCase(Some(p.roles[r]), a, b);
    }
    assert BansPerson(p, a) == BansPerson(p, b);
    if service in p.services {
      FirstIgnoresCase(p, p.services[service].allow, a, b);
    }
  }
}
