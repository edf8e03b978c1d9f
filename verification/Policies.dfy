/** The whole policy: its rules, its flattening into one ordered item list, and its signing. */
module Policies {
  import opened Prelude
  import opened Sorting
  import opened Text
  import opened Terms
  import opened Heads
  import opened ItemOrder

  const DEFAULT_SETTINGS := Settings(5 * 60, 15 * 60)

  function EmptyPolicy(fabric: NodeId): Policy {
    Policy(fabric, 0, 0, 0, [], map[], map[], {}, {}, map[], DEFAULT_SETTINGS)
  }

  // ---------------------------------------------------------------------------
  // The rules a policy keeps
  // ---------------------------------------------------------------------------

  predicate ValidPerson(person: Person) {
    !Blank(person.issuer) && !Blank(person.email) && person.email == Lower(person.email)
  }

  predicate ValidIssuer(issuer: Issuer, config: IssuerConfig) {
    !Blank(issuer) && exists a :: a in config.audiences && !Blank(a)
  }

  predicate ValidRole(matchers: seq<Matcher>, issuers: map<Issuer, IssuerConfig>) {
    matchers != [] && forall m :: m in matchers ==> !Blank(m.issuer) && m.issuer in issuers
  }

  predicate ValidService(service: Service, roles: map<RoleName, seq<Matcher>>, bans: set<NodeId>) {
    && (forall r :: r in service.allow ==> r in roles)
    && Distinct(service.hosts)
    && (forall h :: h in service.hosts ==> h !in bans)
  }

  predicate ValidPolicy(p: Policy) {
    && Distinct(p.directories)
    && (forall d :: d in p.directories ==> d !in p.bans)
    && (forall person :: person in p.personBans ==> ValidPerson(person))
    && (forall i :: i in p.issuers ==> ValidIssuer(i, p.issuers[i]))
    && (forall r :: r in p.roles ==> ValidRole(p.roles[r], p.issuers))
    && (forall s :: s in p.services ==> ValidService(p.services[s], p.roles, p.bans))
    && p.settings.beatSecs != 0
    && p.settings.freshSecs >= p.settings.beatSecs
  }

  method ValidateRole(matchers: seq<Matcher>, issuers: map<Issuer, IssuerConfig>) returns (valid: bool)
    ensures valid == ValidRole(matchers, issuers)
  {
    if matchers == [] {
      return false;
    }
    for i := 0 to |matchers|
      invariant forall m :: m in matchers[..i] ==> !Blank(m.issuer) && m.issuer in issuers
    {
      if Blank(matchers[i].issuer) || matchers[i].issuer !in issuers {
        assert matchers[i] in matchers;
        return false;
      }
    }
    assert matchers[..|matchers|] == matchers;
    return true;
  }

  /** The validation scan, rule by rule; the first broken rule stops it. */
  method Validate(p: Policy) returns (r: Result<(), Error>)
    ensures r == Require(ValidPolicy(p), InvalidPolicy)
  {
    var repeated := FindRepeat(p.directories);
    if repeated || exists d | d in p.directories :: d in p.bans {
      return Err(InvalidPolicy);
    }
    var people := p.personBans;
    while people != {}
      invariant people <= p.personBans
      invariant forall person :: person in p.personBans - people ==> ValidPerson(person)
    {
      var person :| person in people;
      if Blank(person.issuer) || Blank(person.email) || person.email != Lower(person.email) {
        return Err(InvalidPolicy);
      }
      people := people - {person};
    }
    var issuers := p.issuers.Keys;
    while issuers != {}
      invariant issuers <= p.issuers.Keys
      invariant forall i :: i in p.issuers.Keys - issuers ==> ValidIssuer(i, p.issuers[i])
    {
      var i :| i in issuers;
      if Blank(i) || forall a | a in p.issuers[i].audiences :: Blank(a) {
        return Err(InvalidPolicy);
      }
      issuers := issuers - {i};
    }
    var roles := p.roles.Keys;
    while roles != {}
      invariant roles <= p.roles.Keys
      invariant forall r :: r in p.roles.Keys - roles ==> ValidRole(p.roles[r], p.issuers)
    {
      var role :| role in roles;
      var valid := ValidateRole(p.roles[role], p.issuers);
      if !valid {
        return Err(InvalidPolicy);
      }
      roles := roles - {role};
    }
    var services := p.services.Keys;
    while services != {}
      invariant services <= p.services.Keys
      invariant forall s :: s in p.services.Keys - services ==> ValidService(p.services[s], p.roles, p.bans)
    {
      var name :| name in services;
      var service := p.services[name];
      repeated := FindRepeat(service.hosts);
      if repeated || (exists r | r in service.allow :: r !in p.roles)
         || (exists h | h in service.hosts :: h in p.bans) {
        assert !ValidService(service, p.roles, p.bans);
        return Err(InvalidPolicy);
      }
      services := services - {name};
    }
    if p.settings.beatSecs == 0 || p.settings.freshSecs < p.settings.beatSecs {
      return Err(InvalidPolicy);
    }
    return Ok(());
  }

  // ---------------------------------------------------------------------------
  // Flattening
  // ---------------------------------------------------------------------------

  function PolicyKeys(p: Policy): set<ItemKey> {
    (set r | r in p.roles :: RoleKey(r))
    + (set s | s in p.services :: ServiceKey(s))
    + (set n | n in p.bans :: BanKey(n))
    + (set b | b in p.personBans :: PersonBanKey(b))
    + (set i | i in p.issuers :: IssuerKey(i))
    + {SettingsKey}
  }

  /** The service entries among `items`, in order. */
  function Entries(items: seq<Item>): (r: seq<SignedEntry>)
    ensures forall e :: e in r <==> ServiceItem(e) in items
  {
    if items == [] then []
    else
      var init, last := items[..|items| - 1], items[|items| - 1];
      assert items == init + [last];
      if last.ServiceItem? then Entries(init) + [last.entry] else Entries(init)
  }

  /** The entry an earlier policy holds for `name`: the last one listed, as collecting into a map keeps it. */
  function Kept(items: seq<Item>, name: ServiceName): (r: Option<SignedEntry>)
    ensures r.Some? ==> r.value.name == name && ServiceItem(r.value) in items
    ensures r.None? ==> forall e :: ServiceItem(e) in items ==> e.name != name
  {
    if items == [] then None
    else
      var init, last := items[..|items| - 1], items[|items| - 1];
      assert items == init + [last];
      if last.ServiceItem? && last.entry.name == name then Some(last.entry) else Kept(init, name)
  }

  /** The entry for a service: the previous policy's when the edit did not change it, else a new one. */
  function EntryFor(p: Policy, previous: Option<SignedPolicy>, name: ServiceName): (e: SignedEntry)
    requires name in p.services
    ensures e.name == name && e.service == p.services[name]
    ensures e.fabric == p.fabric && e.version <= p.version
  {
    var kept := if previous.Some? then Kept(previous.value.items, name) else None;
    if kept.Some? && IsFor(kept.value, p.fabric, name, p.services[name]) && kept.value.version <= p.version
    then kept.value
    else SignEntry(p.fabric, p.version, name, p.services[name])
  }

  function ItemAt(p: Policy, previous: Option<SignedPolicy>, key: ItemKey): (r: Item)
    requires key in PolicyKeys(p)
    ensures r.Key() == key
  {
    match key
    case RoleKey(r) => RoleItem(r, p.roles[r])
    case ServiceKey(s) => ServiceItem(EntryFor(p, previous, s))
    case BanKey(n) => BanItem(n)
    case PersonBanKey(b) => PersonBanItem(b)
    case IssuerKey(i) => IssuerItem(i, p.issuers[i])
    case SettingsKey => SettingsItem(p.settings)
  }

  function Listing(p: Policy, previous: Option<SignedPolicy>, keys: seq<ItemKey>): (r: seq<Item>)
    requires forall k :: k in keys ==> k in PolicyKeys(p)
    ensures |r| == |keys|
    ensures forall i :: 0 <= i < |keys| ==> r[i] == ItemAt(p, previous, keys[i])
  {
    seq(|keys|, i requires 0 <= i < |keys| => ItemAt(p, previous, keys[i]))
  }

  /** What flattening means: the item of each key the policy holds, in key order. */
  function Flattened(p: Policy, previous: Option<SignedPolicy>): seq<Item> {
    SortedKeysCorrect(PolicyKeys(p));
    Listing(p, previous, SortedKeys(PolicyKeys(p)))
  }

  lemma KindMembers(p: Policy, rank: nat)
    ensures forall k :: k in KindKeys(PolicyKeys(p), rank) <==> k in PolicyKeys(p) && Rank(k) == rank
  {
    SortedKeysCorrect(set k | k in PolicyKeys(p) && Rank(k) == rank);
  }

  /** The items of the first `ranks` kinds. */
  function Listed(p: Policy, previous: Option<SignedPolicy>, ranks: nat): seq<Item> {
    KindByKindMembers(PolicyKeys(p), ranks);
    Listing(p, previous, KindByKind(PolicyKeys(p), ranks))
  }

  function ListedKind(p: Policy, previous: Option<SignedPolicy>, rank: nat): seq<Item> {
    KindMembers(p, rank);
    Listing(p, previous, KindKeys(PolicyKeys(p), rank))
  }

  lemma NextKind(p: Policy, previous: Option<SignedPolicy>, ranks: nat)
    ensures Listed(p, previous, ranks + 1) == Listed(p, previous, ranks) + ListedKind(p, previous, ranks)
  {
  }

  function ListedBy(p: Policy, previous: Option<SignedPolicy>): nat -> seq<Item> {
    (ranks: nat) => Listed(p, previous, ranks)
  }

  function ListedKindBy(p: Policy, previous: Option<SignedPolicy>): nat -> seq<Item> {
    (rank: nat) => ListedKind(p, previous, rank)
  }

  /** Flattening is the six kinds' items, one kind after another. */
  lemma FlattenedByKind(p: Policy, previous: Option<SignedPolicy>)
    ensures Flattened(p, previous)
         == ListedKind(p, previous, 0) + ListedKind(p, previous, 1) + ListedKind(p, previous, 2)
            + ListedKind(p, previous, 3) + ListedKind(p, previous, 4) + [SettingsItem(p.settings)]
  {
    var whole, part := ListedBy(p, previous), ListedKindBy(p, previous);
    forall n: nat ensures Continues(whole, part, n) {
      NextKind(p, previous, n);
    }
    SixParts(whole, part);
    AllListed(p, previous, 6);
    LastKind(p, previous);
  }

  lemma LastKind(p: Policy, previous: Option<SignedPolicy>)
    ensures ListedKind(p, previous, 5) == [SettingsItem(p.settings)]
  {
    OneSettingsKey(p);
  }

  lemma AllListed(p: Policy, previous: Option<SignedPolicy>, ranks: nat)
    requires ranks >= 6
    ensures Listed(p, previous, ranks) == Flattened(p, previous)
  {
    AllKinds(PolicyKeys(p), ranks);
  }

  ghost predicate Continues<T>(whole: nat -> seq<T>, part: nat -> seq<T>, n: nat) {
    whole(n + 1) == whole(n) + part(n)
  }

  lemma SixParts<T>(whole: nat -> seq<T>, part: nat -> seq<T>)
    requires whole(0) == []
    requires forall n: nat :: Continues(whole, part, n)
    ensures whole(6) == part(0) + part(1) + part(2) + part(3) + part(4) + part(5)
  {
    assert Continues(whole, part, 0) && Continues(whole, part, 1) && Continues(whole, part, 2);
    assert Continues(whole, part, 3) && Continues(whole, part, 4) && Continues(whole, part, 5);
  }

  lemma OneSettingsKey(p: Policy)
    ensures KindKeys(PolicyKeys(p), 5) == [SettingsKey]
  {
    var keys := set k | k in PolicyKeys(p) && Rank(k) == 5;
    assert keys == {SettingsKey};
    SortedKeysCorrect(keys);
    KeyOrder();
    AscendingUnique(SortedKeys(keys), [SettingsKey], KeyLess);
  }

  /** Each service is signed unless the previous policy's entry is kept. */
  method ServiceItems(p: Policy, root: NodeId, previous: Option<SignedPolicy>, services: seq<ItemKey>)
    returns (items: seq<Item>)
    requires root == p.fabric
    requires forall k :: k in services ==> k in PolicyKeys(p) && k.ServiceKey?
    ensures items == Listing(p, previous, services)
  {
    items := [];
    for i := 0 to |services|
      invariant items == Listing(p, previous, services[..i])
    {
      assert services[i] in services;
      var name := services[i].service;
      var kept := if previous.Some? then Kept(previous.value.items, name) else None;
      var entry;
      if kept.Some? && IsFor(kept.value, p.fabric, name, p.services[name]) && kept.value.version <= p.version {
        entry := kept.value;
      } else {
        entry := SignEntry(root, p.version, name, p.services[name]);
      }
      items := items + [ServiceItem(entry)];
    }
    assert services[..|services|] == services;
  }

  /** Every item in key order: the maps are walked kind by kind. */
  method Items(p: Policy, root: NodeId, previous: Option<SignedPolicy>) returns (r: Result<seq<Item>, Error>)
    ensures r == if root == p.fabric then Ok(Flattened(p, previous)) else Err(FabricMismatch)
  {
    if root != p.fabric {
      return Err(FabricMismatch);
    }
    var items := ListedKind(p, previous, 0);
    KindMembers(p, 1);
    var services := ServiceItems(p, root, previous, KindKeys(PolicyKeys(p), 1));
    items := items + services;
    items := items + ListedKind(p, previous, 2);
    items := items + ListedKind(p, previous, 3);
    items := items + ListedKind(p, previous, 4);
    items := items + [SettingsItem(p.settings)];
    FlattenedByKind(p, previous);
    return Ok(items);
  }

  // ---------------------------------------------------------------------------
  // Rebuilding
  // ---------------------------------------------------------------------------

  /** A policy being rebuilt, and the settings item if one was seen. */
  datatype Gathering = Gathering(policy: Policy, settings: Option<Settings>)

  function AddItem(g: Gathering, item: Item): Gathering {
    var p := g.policy;
    match item
    case RoleItem(role, matchers) => g.(policy := p.(roles := p.roles[role := matchers]))
    case ServiceItem(entry) => g.(policy := p.(services := p.services[entry.name := entry.service]))
    case BanItem(node) => g.(policy := p.(bans := p.bans + {node}))
    case PersonBanItem(person) => g.(policy := p.(personBans := p.personBans + {person}))
    case IssuerItem(issuer, config) => g.(policy := p.(issuers := p.issuers[issuer := config]))
    case SettingsItem(settings) => g.(settings := Some(settings))
  }

  function Start(head: PolicyHead): Policy {
    EmptyPolicy(head.fabric).(version := head.version, issued := head.issued,
                              notAfter := head.notAfter, directories := head.directories)
  }

  function Gathered(head: PolicyHead, items: seq<Item>): Gathering {
    if items == [] then Gathering(Start(head), None)
    else AddItem(Gathered(head, items[..|items| - 1]), items[|items| - 1])
  }

  /** The policy a head's fields and an ordered item list make. */
  function Rebuilt(head: PolicyHead, items: seq<Item>): Result<Policy, Error> {
    var _ :- Require(InOrder(items), InvalidPolicy);
    var g := Gathered(head, items);
    if g.settings.None? then Err(InvalidPolicy) else Ok(g.policy.(settings := g.settings.value))
  }

  method FromItems(head: PolicyHead, items: seq<Item>) returns (r: Result<Policy, Error>)
    ensures r == Rebuilt(head, items)
  {
    var k := 1;
    while k < |items|
      invariant k == 1 || k <= |items|
      invariant k <= |items| ==> InOrder(items[..k])
    {
      if !KeyLess(items[k - 1].Key(), items[k].Key()) {
        assert !KeyLess(items[k - 1].Key(), items[k - 1 + 1].Key());
        return Err(InvalidPolicy);
      }
      k := k + 1;
    }
    assert InOrder(items) by {
      assert |items| > 0 ==> items[..|items|] == items;
    }
    var p := EmptyPolicy(head.fabric);
    p := p.(version := head.version);
    p := p.(issued := head.issued);
    p := p.(notAfter := head.notAfter);
    p := p.(directories := head.directories);
    var settings := None;
    for i := 0 to |items|
      invariant Gathering(p, settings) == Gathered(head, items[..i])
    {
      assert items[..i + 1][..i] == items[..i];
      match items[i] {
        case RoleItem(role, matchers) => p := p.(roles := p.roles[role := matchers]);
        case ServiceItem(entry) => p := p.(services := p.services[entry.name := entry.service]);
        case BanItem(node) => p := p.(bans := p.bans + {node});
        case PersonBanItem(person) => p := p.(personBans := p.personBans + {person});
        case IssuerItem(issuer, config) => p := p.(issuers := p.issuers[issuer := config]);
        case SettingsItem(body) => settings := Some(body);
      }
    }
    assert items[..|items|] == items;
    if settings.None? {
      return Err(InvalidPolicy);
    }
    return Ok(p.(settings := settings.value));
  }

  /** Every item of `items` is in `p` with its body, and `p` holds nothing else. */
  ghost predicate Represents(p: Policy, items: seq<Item>) {
    && (forall r, m :: RoleItem(r, m) in items <==> r in p.roles && p.roles[r] == m)
    && (forall e :: ServiceItem(e) in items ==> e.name in p.services && p.services[e.name] == e.service)
    && (forall s :: s in p.services ==> exists e :: ServiceItem(e) in items && e.name == s)
    && (forall n :: BanItem(n) in items <==> n in p.bans)
    && (forall b :: PersonBanItem(b) in items <==> b in p.personBans)
    && (forall i, c :: IssuerItem(i, c) in items <==> i in p.issuers && p.issuers[i] == c)
  }

  lemma AddRepresents(g: Gathering, items: seq<Item>, item: Item)
    requires Represents(g.policy, items)
    requires forall i :: i in items ==> i.Key() != item.Key()
    ensures Represents(AddItem(g, item).policy, items + [item])
  {
  }

  lemma {:induction false} GatheredRepresents(head: PolicyHead, items: seq<Item>)
    requires InOrder(items)
    ensures Represents(Gathered(head, items).policy, items)
  {
    if items != [] {
      var init, last := items[..|items| - 1], items[|items| - 1];
      GatheredRepresents(head, init);
      OneOfItsKey(items);
      AddRepresents(Gathered(head, init), init, last);
      assert items == init + [last];
    }
  }

  lemma {:induction false} GatheredSettings(head: PolicyHead, items: seq<Item>)
    requires InOrder(items)
    ensures forall b :: SettingsItem(b) in items <==> Gathered(head, items).settings == Some(b)
  {
    if items != [] {
      var init, last := items[..|items| - 1], items[|items| - 1];
      GatheredSettings(head, init);
      OneOfItsKey(items);
      assert items == init + [last];
      forall b ensures SettingsItem(b) in items <==> Gathered(head, items).settings == Some(b) {
        if last.SettingsItem? && SettingsItem(b) in init {
          assert SettingsItem(b).Key() == last.Key();
        }
      }
    }
  }

  lemma OneOfItsKey(items: seq<Item>)
    requires InOrder(items) && items != []
    ensures forall i :: i in items[..|items| - 1] ==> i.Key() != items[|items| - 1].Key()
  {
    InOrderAscends(items);
  }

  /** Rebuilding never changes the head's own fields. */
  lemma {:induction false} GatheredHead(head: PolicyHead, items: seq<Item>)
    ensures var p := Gathered(head, items).policy;
      p.fabric == head.fabric && p.version == head.version && p.issued == head.issued
      && p.notAfter == head.notAfter && p.directories == head.directories
  {
    if items != [] {
      GatheredHead(head, items[..|items| - 1]);
    }
  }

  // ---------------------------------------------------------------------------
  // Signing and verifying
  // ---------------------------------------------------------------------------

  function HeadOf(p: Policy, items: seq<Item>): PolicyHead {
    PolicyHead(POLICY_V5, p.fabric, p.version, p.issued, p.notAfter, p.directories,
               p.settings.freshSecs, ItemsHash(items))
  }

  /** Validate, then sign, keeping the previous policy's unchanged entries. */
  function SignWith(p: Policy, root: NodeId, previous: Option<SignedPolicy>): Result<SignedPolicy, Error> {
    var _ :- Require(root == p.fabric, FabricMismatch);
    var _ :- Require(ValidPolicy(p), InvalidPolicy);
    var items := Flattened(p, previous);
    var head :- SignHead(HeadOf(p, items), root);
    Ok(SignedPolicy(head, items))
  }

  /** Signing refuses no valid policy of the root's own network. */
  lemma ValidSigns(p: Policy, root: NodeId, previous: Option<SignedPolicy>)
    requires ValidPolicy(p) && p.fabric == root
    ensures SignWith(p, root, previous).Ok?
  {
  }

  /** Signing accepts exactly the policies of the root's network that keep these rules. */
  lemma SignsExactly(p: Policy, root: NodeId, previous: Option<SignedPolicy>)
    ensures SignWith(p, root, previous).Ok? <==>
      && p.fabric == root
      && (forall i, j :: 0 <= i < j < |p.directories| ==> p.directories[i] != p.directories[j])
      && (forall d :: d in p.directories ==> d !in p.bans)
      && (forall b :: b in p.personBans ==> !Blank(b.issuer) && !Blank(b.email) && Lower(b.email) == b.email)
      && (forall i :: i in p.issuers ==> !Blank(i) && exists a :: a in p.issuers[i].audiences && !Blank(a))
      && (forall r :: r in p.roles ==> p.roles[r] != [])
      && (forall r, m :: r in p.roles && m in p.roles[r] ==> !Blank(m.issuer) && m.issuer in p.issuers)
      && (forall s, r :: s in p.services && r in p.services[s].allow ==> r in p.roles)
      && (forall s, h :: s in p.services && h in p.services[s].hosts ==> h !in p.bans)
      && (forall s, i, j :: s in p.services && 0 <= i < j < |p.services[s].hosts| ==>
            p.services[s].hosts[i] != p.services[s].hosts[j])
      && 0 < p.settings.beatSecs <= p.settings.freshSecs
  {
  }

  function SignAfter(p: Policy, root: NodeId, previous: SignedPolicy): Result<SignedPolicy, Error> {
    SignWith(p, root, Some(previous))
  }

  function ToPolicy(signed: SignedPolicy): Result<Policy, Error> {
    Rebuilt(signed.head.head, signed.items)
  }

  /** The one check for a whole signed policy. */
  function VerifyPolicy(signed: SignedPolicy, root: NodeId): Result<(), Error> {
    var _ :- VerifyHead(signed.head, root);
    var p :- ToPolicy(signed);
    var _ :- Require(ItemsHash(signed.items) == signed.head.head.itemsHash, ItemsMismatch);
    var _ :- Require(p.settings.freshSecs == signed.head.head.freshSecs, InvalidPolicy);
    var _ :- CheckAll(Entries(signed.items), (e: SignedEntry) => CheckEntryVersion(e, signed.head));
    var _ :- CheckAll(Entries(signed.items), (e: SignedEntry) => VerifyEntry(e, root));
    Require(ValidPolicy(p), InvalidPolicy)
  }
}
