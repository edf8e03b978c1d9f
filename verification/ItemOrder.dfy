/** The order a policy's items are listed and hashed in: kind first, then key. */
module ItemOrder {
  import opened Sorting
  import opened Text
  import opened Terms

  function Rank(key: ItemKey): nat {
    match key
    case RoleKey(_) => 0
    case ServiceKey(_) => 1
    case BanKey(_) => 2
    case PersonBanKey(_) => 3
    case IssuerKey(_) => 4
    case SettingsKey => 5
  }

  predicate PersonLess(a: Person, b: Person) {
    StrLess(a.issuer, b.issuer) || (a.issuer == b.issuer && StrLess(a.email, b.email))
  }

  /** The order within one kind. */
  predicate SameKindLess(a: ItemKey, b: ItemKey) {
    match (a, b)
    case (RoleKey(x), RoleKey(y)) => StrLess(x, y)
    case (ServiceKey(x), ServiceKey(y)) => StrLess(x, y)
    case (BanKey(x), BanKey(y)) => x < y
    case (PersonBanKey(x), PersonBanKey(y)) => PersonLess(x, y)
    case (IssuerKey(x), IssuerKey(y)) => StrLess(x, y)
    case _ => false
  }

  /** Kinds in declaration order, then each kind's own key order. */
  predicate KeyLess(a: ItemKey, b: ItemKey) {
    Rank(a) < Rank(b) || (Rank(a) == Rank(b) && SameKindLess(a, b))
  }

  lemma KeyOrderTransitive(a: ItemKey, b: ItemKey, c: ItemKey)
    requires KeyLess(a, b) && KeyLess(b, c)
    ensures KeyLess(a, c)
  {
    match (a, b, c)
    case (RoleKey(x), RoleKey(y), RoleKey(z)) => StrLessTransitive(x, y, z);
    case (ServiceKey(x), ServiceKey(y), ServiceKey(z)) => StrLessTransitive(x, y, z);
    case (PersonBanKey(x), PersonBanKey(y), PersonBanKey(z)) =>
      if StrLess(x.issuer, y.issuer) && StrLess(y.issuer, z.issuer) {
        StrLessTransitive(x.issuer, y.issuer, z.issuer);
      } else if x.issuer == y.issuer == z.issuer {
        StrLessTransitive(x.email, y.email, z.email);
      }
    case (IssuerKey(x), IssuerKey(y), IssuerKey(z)) => StrLessTransitive(x, y, z);
    case _ =>
  }

  lemma KeyOrderTotal(a: ItemKey, b: ItemKey)
    ensures a == b || KeyLess(a, b) || KeyLess(b, a)
    ensures !KeyLess(a, a)
  {
    match a {
      case RoleKey(x) => StrLessIrreflexive(x);
      case ServiceKey(x) => StrLessIrreflexive(x);
      case PersonBanKey(x) => StrLessIrreflexive(x.issuer); StrLessIrreflexive(x.email);
      case IssuerKey(x) => StrLessIrreflexive(x);
      case _ =>
    }
    match (a, b)
    case (RoleKey(x), RoleKey(y)) => StrLessTotal(x, y);
    case (ServiceKey(x), ServiceKey(y)) => StrLessTotal(x, y);
    case (PersonBanKey(x), PersonBanKey(y)) => StrLessTotal(x.issuer, y.issuer); StrLessTotal(x.email, y.email);
    case (IssuerKey(x), IssuerKey(y)) => StrLessTotal(x, y);
    case _ =>
  }

  /** Roles come first, then services, removed nodes, removed people, issuers, and the settings last. */
  lemma KindsInOrder(a: ItemKey, b: ItemKey)
    requires KeyLess(a, b)
    ensures b.RoleKey? ==> a.RoleKey? && StrLess(a.role, b.role)
    ensures b.ServiceKey? ==> a.RoleKey? || (a.ServiceKey? && StrLess(a.service, b.service))
    ensures b.BanKey? ==> a.RoleKey? || a.ServiceKey? || (a.BanKey? && a.node < b.node)
    ensures b.PersonBanKey? ==>
      || a.RoleKey? || a.ServiceKey? || a.BanKey?
      || (a.PersonBanKey? && (StrLess(a.person.issuer, b.person.issuer)
                              || (a.person.issuer == b.person.issuer && StrLess(a.person.email, b.person.email))))
    ensures b.IssuerKey? ==> !a.SettingsKey? && (a.IssuerKey? ==> StrLess(a.issuer, b.issuer))
    ensures !a.SettingsKey?
  {
  }

  lemma KeyOrder()
    ensures StrictOrder(KeyLess)
  {
    forall a, b ensures !KeyLess(a, a) && (a == b || KeyLess(a, b) || KeyLess(b, a)) {
      KeyOrderTotal(a, b);
    }
    forall a, b, c | KeyLess(a, b) && KeyLess(b, c) ensures KeyLess(a, c) {
      KeyOrderTransitive(a, b, c);
    }
  }

  function SortedKeys(keys: set<ItemKey>): seq<ItemKey> {
    KeyOrder();
    Sorted(keys, KeyLess)
  }

  lemma SortedKeysCorrect(keys: set<ItemKey>)
    ensures Ascending(SortedKeys(keys), KeyLess)
    ensures forall k :: k in SortedKeys(keys) <==> k in keys
  {
    KeyOrder();
    SortedCorrect(keys, KeyLess);
  }

  /** Sorting two sets, one wholly below the other, and putting them end to end sorts their union. */
  lemma SortedUnion(low: set<ItemKey>, high: set<ItemKey>)
    requires forall x, y :: x in low && y in high ==> Rank(x) < Rank(y)
    ensures SortedKeys(low + high) == SortedKeys(low) + SortedKeys(high)
  {
    KeyOrder();
    SortedKeysCorrect(low);
    SortedKeysCorrect(high);
    SortedKeysCorrect(low + high);
    var a, b := SortedKeys(low), SortedKeys(high);
    forall i, j | 0 <= i < j < |a + b| ensures KeyLess((a + b)[i], (a + b)[j]) {
      assert i < |a| ==> a[i] in low;
      assert j >= |a| ==> b[j - |a|] in high;
    }
    AscendingUnique(SortedKeys(low + high), a + b, KeyLess);
  }

  /** One kind's keys, in order: how the walk of that kind's map visits them. */
  function KindKeys(keys: set<ItemKey>, rank: nat): seq<ItemKey> {
    SortedKeys(set k | k in keys && Rank(k) == rank)
  }

  /** The first `ranks` kinds' keys, one kind after another. */
  function KindByKind(keys: set<ItemKey>, ranks: nat): seq<ItemKey> {
    if ranks == 0 then [] else KindByKind(keys, ranks - 1) + KindKeys(keys, ranks - 1)
  }

  function BelowRank(keys: set<ItemKey>, ranks: nat): set<ItemKey> {
    set k | k in keys && Rank(k) < ranks
  }

  lemma OneMoreKind(keys: set<ItemKey>, rank: nat)
    ensures SortedKeys(BelowRank(keys, rank + 1)) == SortedKeys(BelowRank(keys, rank)) + KindKeys(keys, rank)
  {
    var top := set k | k in keys && Rank(k) == rank;
    SortedUnion(BelowRank(keys, rank), top);
    assert BelowRank(keys, rank + 1) == BelowRank(keys, rank) + top;
  }

  /** Walking the kinds one after another, each in its own order, walks the keys in order. */
  lemma {:induction false} KindsConcatenate(keys: set<ItemKey>, ranks: nat)
    ensures KindByKind(keys, ranks) == SortedKeys(BelowRank(keys, ranks))
  {
    if ranks == 0 {
      assert BelowRank(keys, 0) == {};
      SortedKeysCorrect(BelowRank(keys, 0));
    } else {
      KindsConcatenate(keys, ranks - 1);
      OneMoreKind(keys, ranks - 1);
    }
  }

  lemma AllKinds(keys: set<ItemKey>, ranks: nat)
    requires ranks >= 6
    ensures KindByKind(keys, ranks) == SortedKeys(keys)
  {
    KindsConcatenate(keys, ranks);
    assert keys == BelowRank(keys, ranks);
  }

  lemma KindByKindMembers(keys: set<ItemKey>, ranks: nat)
    ensures forall k :: k in KindByKind(keys, ranks) <==> k in keys && Rank(k) < ranks
  {
    KindsConcatenate(keys, ranks);
    SortedKeysCorrect(BelowRank(keys, ranks));
  }

  /** Each item's key is strictly above the one before it. */
  predicate InOrder(items: seq<Item>) {
    forall i :: 0 <= i < |items| - 1 ==> KeyLess(items[i].Key(), items[i + 1].Key())
  }

  /** Neighbours in order are enough: the whole key list ascends, so no key repeats. */
  lemma {:induction false} InOrderAscends(items: seq<Item>)
    requires InOrder(items)
    ensures Ascending(Keys(items), KeyLess)
    ensures forall i, j :: 0 <= i < |items| && 0 <= j < |items| && items[i].Key() == items[j].Key() ==> i == j
  {
    if |items| > 1 {
      var init := items[..|items| - 1];
      InOrderAscends(init);
      var last := |items| - 1;
      forall i | 0 <= i < last ensures KeyLess(items[i].Key(), items[last].Key()) {
        if i < last - 1 {
          assert KeyLess(Keys(init)[i], Keys(init)[last - 1]);
          KeyOrderTransitive(items[i].Key(), items[last - 1].Key(), items[last].Key());
        }
      }
      forall i, j | 0 <= i < j < |items| ensures KeyLess(Keys(items)[i], Keys(items)[j]) {
        if j < last {
          assert KeyLess(Keys(init)[i], Keys(init)[j]);
        }
      }
    }
    KeyOrder();
  }

  function Keys(items: seq<Item>): (r: seq<ItemKey>)
    ensures |r| == |items|
    ensures forall i :: 0 <= i < |items| ==> r[i] == items[i].Key()
  {
    seq(|items|, i requires 0 <= i < |items| => items[i].Key())
  }
}
