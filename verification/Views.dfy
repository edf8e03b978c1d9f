/** A caller's cut of the policy, and its agreement with the decision over the whole. */
module Views {
  import opened Prelude
  import opened Text
  import opened Terms
  import opened Heads
  import opened ItemOrder
  import opened Policies
  import opened RoundTrip
  import opened Provenance
  import opened Roles

  predicate ServiceMatches(name: ServiceName, service: Service, query: string) {
    Contains(name, query) || Contains(Lower(service.description), query)
  }

  predicate BansCaller(items: seq<Item>, node: NodeId, principal: Option<Principal>) {
    exists i :: i in items &&
      match i
      case BanItem(banned) => banned == node
      case PersonBanItem(person) => principal.Some? && PersonMatches(person, principal.value)
      case _ => false
  }

  /** The definition of `role` among the items, the last one as collecting into a map keeps it. */
  function RoleIn(items: seq<Item>, role: RoleName): (r: Option<seq<Matcher>>)
    ensures r.Some? ==> RoleItem(role, r.value) in items
    ensures r.None? ==> forall m :: RoleItem(role, m) !in items
  {
    if items == [] then None
    else
      var init, last := items[..|items| - 1], items[|items| - 1];
      assert items == init + [last];
      if last.RoleItem? && last.role == role then Some(last.matchers) else RoleIn(init, role)
  }

  function AllowsIn(items: seq<Item>, principal: Option<Principal>): SignedEntry -> bool {
    (e: SignedEntry) => exists r :: r in e.service.allow && Admits(RoleIn(items, r), principal)
  }

  function Asked(query: string): SignedEntry -> bool {
    (e: SignedEntry) => ServiceMatches(e.name, e.service, query)
  }

  /** The view of `node`, a caller presenting `principal`. */
  function ViewFor(signed: SignedPolicy, node: NodeId, principal: Option<Principal>, query: Option<string>): View {
    if BansCaller(signed.items, node, principal) then View(signed.head, [])
    else
      var asked := if query.None? then Entries(signed.items)
                   else Filter(Entries(signed.items), Asked(Lower(query.value)));
      View(signed.head, Filter(asked, AllowsIn(signed.items, principal)))
  }

  predicate NamesInOrder(entries: seq<SignedEntry>) {
    forall i :: 0 <= i < |entries| - 1 ==> StrLess(entries[i].name, entries[i + 1].name)
  }

  function CheckViewEntry(head: SignedPolicyHead, root: NodeId): SignedEntry -> Result<(), Error> {
    (e: SignedEntry) =>
      var _ :- CheckEntryVersion(e, head);
      VerifyEntry(e, root)
  }

  function VerifyView(view: View, root: NodeId): Result<(), Error> {
    var _ :- VerifyHead(view.head, root);
    var _ :- Require(NamesInOrder(view.entries), InvalidPolicy);
    CheckAll(view.entries, CheckViewEntry(view.head, root))
  }

  /** The entry the view holds for `name`, if any. */
  function ViewEntry(entries: seq<SignedEntry>, name: ServiceName): (r: Option<SignedEntry>)
    ensures r.Some? ==> r.value in entries && r.value.name == name
    ensures r.None? ==> forall e :: e in entries ==> e.name != name
  {
    if entries == [] then None
    else if entries[0].name == name then Some(entries[0])
    else
      assert entries == [entries[0]] + entries[1..];
      ViewEntry(entries[1..], name)
  }

  /** Reading a view by a query; the view itself is unchanged. */
  function Matching(view: View, query: string): seq<SignedEntry> {
    Filter(view.entries, Asked(Lower(query)))
  }

  // ---------------------------------------------------------------------------
  // Agreement with the whole policy
  // ---------------------------------------------------------------------------

  lemma BansAgree(signed: SignedPolicy, node: NodeId, principal: Option<Principal>)
    requires ToPolicy(signed).Ok?
    ensures var p := ToPolicy(signed).value;
      BansCaller(signed.items, node, principal)
      <==> node in p.bans || (principal.Some? && BansPerson(p, principal.value))
  {
    RebuiltRepresents(signed.head.head, signed.items);
    var p := ToPolicy(signed).value;
    if node in p.bans {
      assert BanItem(node) in signed.items;
    }
    if principal.Some? && BansPerson(p, principal.value) {
      var person :| person in p.personBans && PersonMatches(person, principal.value);
      assert PersonBanItem(person) in signed.items;
    }
  }

  lemma RolesAgree(signed: SignedPolicy, role: RoleName)
    requires ToPolicy(signed).Ok?
    ensures RoleIn(signed.items, role) == Defined(ToPolicy(signed).value, role)
  {
    RebuiltRepresents(signed.head.head, signed.items);
    var p := ToPolicy(signed).value;
    if role in p.roles {
      assert RoleItem(role, p.roles[role]) in signed.items;
    }
  }

  lemma AllowsAgrees(signed: SignedPolicy, principal: Option<Principal>, e: SignedEntry)
    requires ToPolicy(signed).Ok?
    ensures AllowsIn(signed.items, principal)(e)
            <==> FirstAdmitting(ToPolicy(signed).value, e.service.allow, principal).Some?
  {
    forall r ensures RoleIn(signed.items, r) == Defined(ToPolicy(signed).value, r) {
      RolesAgree(signed, r);
    }
  }

  /** Which entries an unqueried view holds: those of the services the caller may call, with their bodies. */
  lemma ViewHolds(signed: SignedPolicy, node: NodeId, principal: Option<Principal>, e: SignedEntry)
    requires ToPolicy(signed).Ok?
    ensures var p := ToPolicy(signed).value;
      e in ViewFor(signed, node, principal, None).entries
      <==> ServiceItem(e) in signed.items && Authorize(p, node, principal, e.name).Ok?
  {
    var p := ToPolicy(signed).value;
    BansAgree(signed, node, principal);
    AllowsAgrees(signed, principal, e);
    assert ServiceItem(e) in signed.items ==> e.name in p.services && p.services[e.name] == e.service by {
      RebuiltRepresents(signed.head.head, signed.items);
    }
  }

  /**
    A view agrees with the whole policy: it holds a service's entry exactly when the policy lets the
    caller call that service, and the entry then carries the policy's body for it.
   */
  lemma ViewAgrees(signed: SignedPolicy, root: NodeId, node: NodeId, principal: Option<Principal>, name: ServiceName)
    requires VerifyPolicy(signed, root).Ok?
    ensures ToPolicy(signed).Ok?
    ensures var p := ToPolicy(signed).value;
      var found := ViewEntry(ViewFor(signed, node, principal, None).entries, name);
      && (found.Some? <==> Authorize(p, node, principal, name).Ok?)
      && (found.Some? ==> p.services[name] == found.value.service)
  {
    VerifiedParts(signed, root);
    var p := ToPolicy(signed).value;
    RebuiltRepresents(signed.head.head, signed.items);
    var found := ViewEntry(ViewFor(signed, node, principal, None).entries, name);
    if found.Some? {
      ViewHolds(signed, node, principal, found.value);
    }
    if Authorize(p, node, principal, name).Ok? {
      var e :| ServiceItem(e) in signed.items && e.name == name;
      ViewHolds(signed, node, principal, e);
    }
  }

  /** Cutting with a query is cutting without one and then reading the view by that query. */
  lemma QueryIsMatching(signed: SignedPolicy, node: NodeId, principal: Option<Principal>, query: string)
    ensures ViewFor(signed, node, principal, Some(query)).entries
         == Matching(ViewFor(signed, node, principal, None), query)
  {
    var all := Entries(signed.items);
    FilterSwap(all, Asked(Lower(query)), AllowsIn(signed.items, principal));
  }

  /**
    What a query finds: of the entries the caller may see, those whose name has the query in it, in lower
    case, or whose description has it in any case.
   */
  lemma QueryFinds(signed: SignedPolicy, node: NodeId, principal: Option<Principal>, query: string, e: SignedEntry)
    ensures e in ViewFor(signed, node, principal, Some(query)).entries
            <==> e in ViewFor(signed, node, principal, None).entries
                 && (HasPart(e.name, Lower(query)) || HasPart(Lower(e.service.description), Lower(query)))
  {
    ContainsIff(e.name, Lower(query));
    ContainsIff(Lower(e.service.description), Lower(query));
  }

  predicate HasPart(whole: string, part: string) {
    exists i, j :: 0 <= i <= j <= |whole| && whole[i..j] == part
  }

  lemma ContainsIff(hay: string, needle: string)
    ensures Contains(hay, needle) <==> HasPart(hay, needle)
  {
    if Contains(hay, needle) {
      var i :| 0 <= i <= |hay| && needle <= hay[i..];
      assert hay[i..i + |needle|] == needle;
    }
    if HasPart(hay, needle) {
      var i, j :| 0 <= i <= j <= |hay| && hay[i..j] == needle;
      assert needle <= hay[i..];
    }
  }

  lemma {:induction false} FilterSwap<T(!new)>(s: seq<T>, a: T -> bool, b: T -> bool)
    ensures Filter(Filter(s, a), b) == Filter(Filter(s, b), a)
  {
    if s != [] {
      var init, last := s[..|s| - 1], s[|s| - 1];
      FilterSwap(init, a, b);
      FilterConcat(Filter(init, a), [last], b);
      FilterConcat(Filter(init, b), [last], a);
    }
  }

  ghost predicate NamesAscend(entries: seq<SignedEntry>) {
    forall i, j :: 0 <= i < j < |entries| ==> StrLess(entries[i].name, entries[j].name)
  }

  lemma {:induction false} EntriesAscend(items: seq<Item>)
    requires InOrder(items)
    ensures NamesAscend(Entries(items))
  {
    if items != [] {
      var init, last := items[..|items| - 1], items[|items| - 1];
      EntriesAscend(init);
      if last.ServiceItem? {
        InOrderAscends(items);
        forall e | e in Entries(init) ensures StrLess(e.name, last.entry.name) {
          var n :| 0 <= n < |init| && init[n] == ServiceItem(e);
          assert KeyLess(Keys(items)[n], Keys(items)[|items| - 1]);
        }
      }
    }
  }

  lemma {:induction false} FilterAscends(entries: seq<SignedEntry>, keep: SignedEntry -> bool)
    requires NamesAscend(entries)
    ensures NamesAscend(Filter(entries, keep))
  {
    if entries != [] {
      var init, last := entries[..|entries| - 1], entries[|entries| - 1];
      FilterAscends(init, keep);
      forall e | e in Filter(init, keep) ensures StrLess(e.name, last.name) {
        var n :| 0 <= n < |init| && init[n] == e;
        assert StrLess(entries[n].name, entries[|entries| - 1].name);
      }
    }
  }

  lemma ViewAscends(signed: SignedPolicy, node: NodeId, principal: Option<Principal>, query: Option<string>)
    requires InOrder(signed.items)
    ensures NamesAscend(ViewFor(signed, node, principal, query).entries)
  {
    EntriesAscend(signed.items);
    if query.Some? {
      FilterAscends(Entries(signed.items), Asked(Lower(query.value)));
      FilterAscends(Filter(Entries(signed.items), Asked(Lower(query.value))), AllowsIn(signed.items, principal));
    } else {
      FilterAscends(Entries(signed.items), AllowsIn(signed.items, principal));
    }
  }

  lemma EntryPasses(signed: SignedPolicy, root: NodeId, e: SignedEntry)
    requires VerifyPolicy(signed, root).Ok? && e in Entries(signed.items)
    ensures CheckViewEntry(signed.head, root)(e).Ok?
  {
    VerifiedParts(signed, root);
    assert ServiceItem(e) in signed.items;
  }

  /** Every view of a verified policy verifies under the same root, whatever the caller and the query. */
  lemma ViewVerifies(
    signed: SignedPolicy, root: NodeId, node: NodeId, principal: Option<Principal>, query: Option<string>)
    requires VerifyPolicy(signed, root).Ok?
    ensures VerifyView(ViewFor(signed, node, principal, query), root).Ok?
  {
    VerifiedParts(signed, root);
    VerifiesIffSigned(signed.head, root);
    var view := ViewFor(signed, node, principal, query);
    ViewAscends(signed, node, principal, query);
    forall e | e in view.entries ensures CheckViewEntry(view.head, root)(e).Ok? {
      EntryPasses(signed, root, e);
    }
  }

  lemma {:induction false} NeighboursAscend(entries: seq<SignedEntry>, i: nat, j: nat)
    requires NamesInOrder(entries) && i < j < |entries|
    ensures StrLess(entries[i].name, entries[j].name)
  {
    if i < j - 1 {
      NeighboursAscend(entries, i, j - 1);
      StrLessTransitive(entries[i].name, entries[j - 1].name, entries[j - 1 + 1].name);
    }
  }

  /**
    Which views a caller takes, whoever hands them over: exactly those under a head that is the root's, with
    every name before the ones after it, and every entry, signature and all, the root's and no newer than the
    head.
   */
  lemma ViewVerifiesIff(view: View, root: NodeId)
    ensures VerifyView(view, root).Ok? <==>
      && view.head.head.format == POLICY_V5 && SignHead(view.head.head, root) == Ok(view.head)
      && (forall i, j :: 0 <= i < j < |view.entries| ==> StrLess(view.entries[i].name, view.entries[j].name))
      && (forall e :: e in view.entries ==>
            e == SignEntry(root, e.version, e.name, e.service) && e.version <= view.head.head.version)
  {
    VerifiesIffSigned(view.head, root);
    if NamesInOrder(view.entries) {
      forall i, j | 0 <= i < j < |view.entries| ensures StrLess(view.entries[i].name, view.entries[j].name) {
        NeighboursAscend(view.entries, i, j);
      }
    }
    forall e | e in view.entries
      ensures view.head.head.fabric == root ==>
        (CheckViewEntry(view.head, root)(e).Ok?
         <==> e == SignEntry(root, e.version, e.name, e.service) && e.version <= view.head.head.version)
    {
      EntryVerifiesIffSigned(e, root);
    }
  }

  /** So no view a caller takes says of a service what the root did not sign: at most it leaves services out. */
  lemma ViewNotForged(view: View, root: NodeId, signings: seq<Signing>, e: SignedEntry)
    requires VerifyView(view, root).Ok? && e in view.entries
    requires Unforged(root, signings, view.head.sig) && Unforged(root, signings, e.sig)
    ensures exists s :: s in signings && SignWith(s.policy, root, s.previous).Ok?
                        && SignWith(s.policy, root, s.previous).value.head == view.head
    ensures exists s :: s in signings && SignWith(s.policy, root, s.previous).Ok?
                        && s.policy.version == e.version <= view.head.head.version
                        && e.name in s.policy.services && s.policy.services[e.name] == e.service
  {
    ViewVerifiesIff(view, root);
    VerifiesIffSigned(view.head, root);
    EntryVerifiesIffSigned(e, root);
    NoForgedHead(root, signings, view.head);
    NoForgedEntry(root, signings, e);
  }
}
