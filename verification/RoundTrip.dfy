/** Flattening and rebuilding undo each other, and what verification accepts is what signing makes. */
module RoundTrip {
  import opened Prelude
  import opened Sorting
  import opened Terms
  import opened Heads
  import opened ItemOrder
  import opened Policies

  // ---------------------------------------------------------------------------
  // Rebuilding what was flattened
  // ---------------------------------------------------------------------------

  lemma FlattenedKeys(p: Policy, previous: Option<SignedPolicy>)
    ensures Keys(Flattened(p, previous)) == SortedKeys(PolicyKeys(p))
    ensures InOrder(Flattened(p, previous))
    ensures forall k :: k in PolicyKeys(p) ==> ItemAt(p, previous, k) in Flattened(p, previous)
    ensures forall i :: i in Flattened(p, previous) ==> i.Key() in PolicyKeys(p) && i == ItemAt(p, previous, i.Key())
  {
    SortedKeysCorrect(PolicyKeys(p));
    var keys, items := SortedKeys(PolicyKeys(p)), Flattened(p, previous);
    forall i | 0 <= i < |items| - 1 ensures KeyLess(items[i].Key(), items[i + 1].Key()) {
      assert KeyLess(keys[i], keys[i + 1]);
    }
    forall k | k in PolicyKeys(p) ensures ItemAt(p, previous, k) in items {
      var i :| 0 <= i < |keys| && keys[i] == k;
      assert items[i] == ItemAt(p, previous, k);
    }
  }

  lemma FlattenedHolds(p: Policy, previous: Option<SignedPolicy>, i: Item)
    ensures i in Flattened(p, previous) <==> i.Key() in PolicyKeys(p) && i == ItemAt(p, previous, i.Key())
  {
    FlattenedKeys(p, previous);
  }

  lemma FlattenedRole(p: Policy, previous: Option<SignedPolicy>, r: RoleName, m: seq<Matcher>)
    ensures RoleItem(r, m) in Flattened(p, previous) <==> r in p.roles && p.roles[r] == m
  {
    FlattenedHolds(p, previous, RoleItem(r, m));
  }

  lemma FlattenedEntry(p: Policy, previous: Option<SignedPolicy>, e: SignedEntry)
    ensures ServiceItem(e) in Flattened(p, previous)
            <==> e.name in p.services && e == EntryFor(p, previous, e.name)
  {
    FlattenedHolds(p, previous, ServiceItem(e));
  }

  lemma FlattenedBan(p: Policy, previous: Option<SignedPolicy>, n: NodeId)
    ensures BanItem(n) in Flattened(p, previous) <==> n in p.bans
  {
    FlattenedHolds(p, previous, BanItem(n));
  }

  lemma FlattenedPersonBan(p: Policy, previous: Option<SignedPolicy>, b: Person)
    ensures PersonBanItem(b) in Flattened(p, previous) <==> b in p.personBans
  {
    FlattenedHolds(p, previous, PersonBanItem(b));
  }

  lemma FlattenedIssuer(p: Policy, previous: Option<SignedPolicy>, i: Issuer, c: IssuerConfig)
    ensures IssuerItem(i, c) in Flattened(p, previous) <==> i in p.issuers && p.issuers[i] == c
  {
    FlattenedHolds(p, previous, IssuerItem(i, c));
  }

  lemma FlattenedRepresents(p: Policy, previous: Option<SignedPolicy>)
    ensures Represents(p, Flattened(p, previous))
    ensures forall b :: SettingsItem(b) in Flattened(p, previous) <==> b == p.settings
  {
    var items := Flattened(p, previous);
    forall r, m ensures RoleItem(r, m) in items <==> r in p.roles && p.roles[r] == m {
      FlattenedRole(p, previous, r, m);
    }
    forall e | ServiceItem(e) in items ensures e.name in p.services && p.services[e.name] == e.service {
      FlattenedEntry(p, previous, e);
    }
    forall s | s in p.services ensures exists e :: ServiceItem(e) in items && e.name == s {
      FlattenedEntry(p, previous, EntryFor(p, previous, s));
    }
    forall n ensures BanItem(n) in items <==> n in p.bans {
      FlattenedBan(p, previous, n);
    }
    forall b ensures PersonBanItem(b) in items <==> b in p.personBans {
      FlattenedPersonBan(p, previous, b);
    }
    forall i, c ensures IssuerItem(i, c) in items <==> i in p.issuers && p.issuers[i] == c {
      FlattenedIssuer(p, previous, i, c);
    }
    forall b ensures SettingsItem(b) in items <==> b == p.settings {
      FlattenedHolds(p, previous, SettingsItem(b));
    }
  }

  /** One item list represents at most one assignment of every kind. */
  lemma RepresentsUnique(a: Policy, b: Policy, items: seq<Item>)
    requires Represents(a, items) && Represents(b, items)
    ensures a.roles == b.roles && a.services == b.services && a.bans == b.bans
    ensures a.personBans == b.personBans && a.issuers == b.issuers
  {
    forall r ensures r in a.roles <==> r in b.roles
             ensures r in a.roles ==> a.roles[r] == b.roles[r] {
      assert r in a.roles ==> RoleItem(r, a.roles[r]) in items;
      assert r in b.roles ==> RoleItem(r, b.roles[r]) in items;
    }
    forall i ensures i in a.issuers <==> i in b.issuers
             ensures i in a.issuers ==> a.issuers[i] == b.issuers[i] {
      assert i in a.issuers ==> IssuerItem(i, a.issuers[i]) in items;
      assert i in b.issuers ==> IssuerItem(i, b.issuers[i]) in items;
    }
    forall n ensures n in a.bans <==> n in b.bans {
      assert BanItem(n) in items <==> n in a.bans;
    }
    forall p ensures p in a.personBans <==> p in b.personBans {
      assert PersonBanItem(p) in items <==> p in a.personBans;
    }
  }

  /** Rebuilding a flattened policy under its own head gives the policy back, whatever entries were kept. */
  lemma RebuildUndoesFlatten(p: Policy, previous: Option<SignedPolicy>)
    ensures Rebuilt(HeadOf(p, Flattened(p, previous)), Flattened(p, previous)) == Ok(p)
  {
    var items := Flattened(p, previous);
    var head := HeadOf(p, items);
    FlattenedKeys(p, previous);
    FlattenedRepresents(p, previous);
    GatheredRepresents(head, items);
    GatheredSettings(head, items);
    GatheredHead(head, items);
    RepresentsUnique(p, Gathered(head, items).policy, items);
    assert SettingsItem(p.settings) in items;
  }

  // ---------------------------------------------------------------------------
  // Flattening what was rebuilt
  // ---------------------------------------------------------------------------

  /** The entries a head may carry: of its network, at its version or older. */
  ghost predicate EntriesFit(items: seq<Item>, fabric: NodeId, version: nat) {
    forall e :: ServiceItem(e) in items ==> e.fabric == fabric && e.version <= version
  }

  lemma RebuiltRepresents(head: PolicyHead, items: seq<Item>)
    requires Rebuilt(head, items).Ok?
    ensures var p := Rebuilt(head, items).value;
      && Represents(p, items)
      && (forall b :: SettingsItem(b) in items <==> b == p.settings)
      && p.fabric == head.fabric && p.version == head.version && p.issued == head.issued
      && p.notAfter == head.notAfter && p.directories == head.directories
  {
    GatheredRepresents(head, items);
    GatheredSettings(head, items);
    GatheredHead(head, items);
  }

  /** In an ordered list the entry kept for a name is the only entry of that name. */
  lemma KeptIsTheEntry(items: seq<Item>, e: SignedEntry)
    requires InOrder(items) && ServiceItem(e) in items
    ensures Kept(items, e.name) == Some(e)
  {
    InOrderAscends(items);
    var kept := Kept(items, e.name);
    assert ServiceItem(kept.value).Key() == ServiceItem(e).Key();
  }

  /** Each item of an ordered list is what flattening would put under its key. */
  lemma ItemIsAtItsKey(head: PolicyHead, items: seq<Item>, under: SignedPolicyHead, i: Item)
    requires Rebuilt(head, items).Ok? && i in items
    requires EntriesFit(items, head.fabric, head.version)
    ensures var p := Rebuilt(head, items).value;
      i.Key() in PolicyKeys(p) && ItemAt(p, Some(SignedPolicy(under, items)), i.Key()) == i
  {
    RebuiltRepresents(head, items);
    var p := Rebuilt(head, items).value;
    match i
    case RoleItem(r, m) => assert r in p.roles;
    case ServiceItem(e) => KeptIsTheEntry(items, e);
    case BanItem(n) => assert n in p.bans;
    case PersonBanItem(b) => assert b in p.personBans;
    case IssuerItem(iss, c) => assert iss in p.issuers;
    case SettingsItem(_) =>
  }

  lemma KeysAreTheItems(p: Policy, items: seq<Item>)
    requires InOrder(items) && Represents(p, items) && SettingsItem(p.settings) in items
    requires forall i :: i in items ==> i.Key() in PolicyKeys(p)
    ensures SortedKeys(PolicyKeys(p)) == Keys(items)
  {
    forall k | k in PolicyKeys(p) ensures k in Keys(items) {
      var i := KeyHasItem(p, items, k);
      var n :| 0 <= n < |items| && items[n] == i;
      assert Keys(items)[n] == k;
    }
    forall k | k in Keys(items) ensures k in PolicyKeys(p) {
      var n :| 0 <= n < |items| && items[n].Key() == k;
    }
    InOrderAscends(items);
    SortedKeysCorrect(PolicyKeys(p));
    KeyOrder();
    AscendingUnique(SortedKeys(PolicyKeys(p)), Keys(items), KeyLess);
  }

  /** Rebuilding an ordered list and flattening again, keeping its entries, gives the same list. */
  lemma FlattenUndoesRebuild(head: PolicyHead, items: seq<Item>, under: SignedPolicyHead)
    requires Rebuilt(head, items).Ok?
    requires EntriesFit(items, head.fabric, head.version)
    ensures Flattened(Rebuilt(head, items).value, Some(SignedPolicy(under, items))) == items
  {
    var p, previous := Rebuilt(head, items).value, Some(SignedPolicy(under, items));
    forall i | i in items ensures i.Key() in PolicyKeys(p) && ItemAt(p, previous, i.Key()) == i {
      ItemIsAtItsKey(head, items, under, i);
    }
    RebuiltRepresents(head, items);
    KeysAreTheItems(p, items);
    forall n | 0 <= n < |items| ensures Flattened(p, previous)[n] == items[n] {
      assert Keys(items)[n] == items[n].Key();
    }
  }

  lemma KeyHasItem(p: Policy, items: seq<Item>, key: ItemKey) returns (i: Item)
    requires Represents(p, items) && SettingsItem(p.settings) in items
    requires key in PolicyKeys(p)
    ensures i in items && i.Key() == key
  {
    match key
    case RoleKey(r) => i := RoleItem(r, p.roles[r]);
    case ServiceKey(s) => var e :| ServiceItem(e) in items && e.name == s; i := ServiceItem(e);
    case BanKey(n) => i := BanItem(n);
    case PersonBanKey(b) => i := PersonBanItem(b);
    case IssuerKey(iss) => i := IssuerItem(iss, p.issuers[iss]);
    case SettingsKey => i := SettingsItem(p.settings);
  }

  // ---------------------------------------------------------------------------
  // What an ordered list looks like
  // ---------------------------------------------------------------------------

  function RankIs(rank: nat): Item -> bool {
    (i: Item) => Rank(i.Key()) == rank
  }

  function RankBelow(rank: nat): Item -> bool {
    (i: Item) => Rank(i.Key()) < rank
  }

  function OfRank(items: seq<Item>, rank: nat): seq<Item> {
    Filter(items, RankIs(rank))
  }

  function BelowRank(items: seq<Item>, rank: nat): seq<Item> {
    Filter(items, RankBelow(rank))
  }

  /** Everything before an item of an ordered list is of its kind or an earlier one. */
  lemma RanksRise(items: seq<Item>, i: Item)
    requires InOrder(items) && items != [] && i in items
    ensures Rank(i.Key()) <= Rank(items[|items| - 1].Key())
  {
    InOrderAscends(items);
    var n :| 0 <= n < |items| && items[n] == i;
    if n < |items| - 1 {
      assert KeyLess(Keys(items)[n], Keys(items)[|items| - 1]);
    }
  }

  lemma {:induction false} NextRank(items: seq<Item>, rank: nat)
    requires InOrder(items)
    ensures BelowRank(items, rank + 1) == BelowRank(items, rank) + OfRank(items, rank)
  {
    if items != [] {
      var init, last := items[..|items| - 1], items[|items| - 1];
      if Rank(last.Key()) < rank {
        forall i | i in items ensures Rank(i.Key()) < rank {
          RanksRise(items, i);
        }
        FilterNone(items, RankIs(rank));
        FilterAll(items, RankBelow(rank));
        FilterAll(items, RankBelow(rank + 1));
      } else {
        NextRank(init, rank);
      }
    }
  }

  function BelowRanks(items: seq<Item>): nat -> seq<Item> {
    (rank: nat) => BelowRank(items, rank)
  }

  function OfRanks(items: seq<Item>): nat -> seq<Item> {
    (rank: nat) => OfRank(items, rank)
  }

  /** An ordered list is its six kinds one after another. */
  lemma OrderedIsSixKinds(items: seq<Item>)
    requires InOrder(items)
    ensures items == OfRank(items, 0) + OfRank(items, 1) + OfRank(items, 2)
                     + OfRank(items, 3) + OfRank(items, 4) + OfRank(items, 5)
  {
    forall n: nat ensures Continues(BelowRanks(items), OfRanks(items), n) {
      NextRank(items, n);
    }
    FilterNone(items, RankBelow(0));
    SixParts(BelowRanks(items), OfRanks(items));
    FilterAll(items, RankBelow(6));
  }

  /** An ordered list holds at most one settings item, and it comes last. */
  lemma SettingsLast(items: seq<Item>, i: nat)
    requires InOrder(items) && i < |items| && items[i].SettingsItem?
    ensures i == |items| - 1
  {
    InOrderAscends(items);
    assert i < |items| - 1 ==> KeyLess(Keys(items)[i], Keys(items)[|items| - 1]);
  }

  // ---------------------------------------------------------------------------
  // Verifying what was signed
  // ---------------------------------------------------------------------------

  ghost predicate EntriesVerify(items: seq<Item>, root: NodeId) {
    forall e :: ServiceItem(e) in items ==> VerifyEntry(e, root).Ok?
  }

  /** Signing over a verified policy, or over none, makes a policy that verifies. */
  lemma SignedVerifies(p: Policy, root: NodeId, previous: Option<SignedPolicy>)
    requires SignWith(p, root, previous).Ok?
    requires previous.Some? ==> EntriesVerify(previous.value.items, root)
    ensures VerifyPolicy(SignWith(p, root, previous).value, root).Ok?
    ensures ToPolicy(SignWith(p, root, previous).value) == Ok(p)
    ensures EntriesVerify(SignWith(p, root, previous).value.items, root)
  {
    var items := Flattened(p, previous);
    RebuildUndoesFlatten(p, previous);
    forall e | ServiceItem(e) in items
      ensures e.fabric == p.fabric && e.version <= p.version && VerifyEntry(e, root).Ok?
    {
      FlattenedEntry(p, previous, e);
    }
  }

  lemma VerifiedParts(signed: SignedPolicy, root: NodeId)
    requires VerifyPolicy(signed, root).Ok?
    ensures SignHead(signed.head.head, root) == Ok(signed.head)
    ensures ToPolicy(signed).Ok? && ValidPolicy(ToPolicy(signed).value)
    ensures signed.head.head.itemsHash == ItemsHash(signed.items)
    ensures signed.head.head.freshSecs == ToPolicy(signed).value.settings.freshSecs
    ensures signed.head.head.format == POLICY_V5 && signed.head.head.fabric == root
    ensures EntriesFit(signed.items, root, signed.head.head.version)
    ensures EntriesVerify(signed.items, root)
  {
  }

  /** A policy that verifies is, head and items, what signing its own contents again makes. */
  lemma ResigningIsIdentity(signed: SignedPolicy, root: NodeId)
    requires VerifyPolicy(signed, root).Ok?
    ensures ToPolicy(signed).Ok?
    ensures SignWith(ToPolicy(signed).value, root, Some(signed)) == Ok(signed)
  {
    VerifiedParts(signed, root);
    var p, items := ToPolicy(signed).value, signed.items;
    GatheredHead(signed.head.head, items);
    FlattenUndoesRebuild(signed.head.head, items, signed.head);
    assert signed == SignedPolicy(signed.head, items);
    assert Flattened(p, Some(signed)) == items;
    assert HeadOf(p, items) == signed.head.head;
  }

  /** Verification accepts exactly the policies whose entries verify and that re-sign to themselves. */
  lemma VerifiesIffResigns(signed: SignedPolicy, root: NodeId)
    ensures VerifyPolicy(signed, root).Ok?
            <==> EntriesVerify(signed.items, root)
                 && exists p :: SignWith(p, root, Some(signed)) == Ok(signed)
  {
    if VerifyPolicy(signed, root).Ok? {
      ResigningIsIdentity(signed, root);
      VerifiedParts(signed, root);
    }
    if EntriesVerify(signed.items, root) && exists p :: SignWith(p, root, Some(signed)) == Ok(signed) {
      var p :| SignWith(p, root, Some(signed)) == Ok(signed);
      SignedVerifies(p, root, Some(signed));
    }
  }
}
