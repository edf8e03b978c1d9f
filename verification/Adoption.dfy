/** What a store takes of what it is offered: over every run of offers, whoever serves them. */
module Adoption {
  import opened Prelude
  import opened Terms
  import opened Policies
  import opened RoundTrip
  import opened Provenance
  import opened Histories
  import opened Admin
  import opened Protocol

  /** Whether `signed` is, entries included, what signing some policy with the root's key makes. */
  ghost predicate RootMade(root: NodeId, signed: SignedPolicy) {
    EntriesVerify(signed.items, root) && exists p :: SignWith(p, root, Some(signed)) == Ok(signed)
  }

  lemma RefusedIff(root: NodeId, stored: Option<SignedPolicy>, candidate: SignedPolicy, now: int)
    requires Sound(root, stored)
    ensures Adopts(root, stored, candidate, now).Err?
            <==> !RootMade(root, candidate) || now > candidate.head.head.notAfter
  {
    VerifiesIffResigns(candidate, root);
  }

  /**
    A store that holds a policy which verifies, or none, takes a candidate exactly when it is what the root
    makes, is not past its expiry, and is of a strictly higher version than what is held.
   */
  lemma AdoptsIff(root: NodeId, stored: Option<SignedPolicy>, candidate: SignedPolicy, now: int)
    requires Sound(root, stored)
    ensures Adopts(root, stored, candidate, now) == Ok(true) <==>
      && EntriesVerify(candidate.items, root)
      && (exists p :: SignWith(p, root, Some(candidate)) == Ok(candidate))
      && now <= candidate.head.head.notAfter
      && (stored.Some? ==> candidate.head.head.version > stored.value.head.head.version)
  {
    RefusedIff(root, stored, candidate, now);
    if VerifyPolicy(candidate, root).Ok? {
      TypedStamps(root, candidate);
    }
    if stored.Some? {
      TypedStamps(root, stored.value);
    }
  }

  /** Over a stored policy that does not verify nothing is taken, whatever is offered. */
  lemma BrokenStoreTakesNothing(root: NodeId, stored: Option<SignedPolicy>, candidate: SignedPolicy, now: int)
    requires !Sound(root, stored)
    ensures Adopts(root, stored, candidate, now).Err?
  {
  }

  // ---------------------------------------------------------------------------
  // Runs of offers
  // ---------------------------------------------------------------------------

  /** A policy somebody serves, and the store's clock when it is looked at. */
  datatype Offer = Offer(candidate: SignedPolicy, now: int)

  function AfterOffer(root: NodeId, stored: Option<SignedPolicy>, offer: Offer): Option<SignedPolicy> {
    if Adopts(root, stored, offer.candidate, offer.now) == Ok(true) then Some(offer.candidate) else stored
  }

  function AfterOffers(root: NodeId, stored: Option<SignedPolicy>, offers: seq<Offer>): Option<SignedPolicy> {
    if offers == [] then stored
    else AfterOffer(root, AfterOffers(root, stored, offers[..|offers| - 1]), offers[|offers| - 1])
  }

  /** Offered while it was good: made by the root, and not past its expiry. */
  ghost predicate Good(root: NodeId, offer: Offer) {
    RootMade(root, offer.candidate) && offer.now <= offer.candidate.head.head.notAfter
  }

  /** What one good or bad offer leaves stored. */
  lemma OneOffer(root: NodeId, stored: Option<SignedPolicy>, offer: Offer)
    requires Sound(root, stored)
    ensures var after := AfterOffer(root, stored, offer);
      && Sound(root, after) && VersionOf(stored) <= VersionOf(after)
      && (after == stored || (after == Some(offer.candidate) && Good(root, offer)))
      && (Good(root, offer) ==> after.Some? && offer.candidate.head.head.version <= VersionOf(after))
  {
    AdoptsIff(root, stored, offer.candidate, offer.now);
    if Good(root, offer) {
      VerifiesIffResigns(offer.candidate, root);
    }
  }

  /** Whether `after` is a good one of the first `j` offers. */
  ghost predicate IsGoodOffer(root: NodeId, offers: seq<Offer>, j: nat, after: Option<SignedPolicy>)
    requires j <= |offers|
  {
    exists k :: 0 <= k < j && Good(root, offers[k]) && after == Some(offers[k].candidate)
  }

  lemma {:induction false} OffersStaySound(root: NodeId, stored: Option<SignedPolicy>, offers: seq<Offer>)
    requires Sound(root, stored)
    ensures var after := AfterOffers(root, stored, offers);
      Sound(root, after) && VersionOf(stored) <= VersionOf(after)
  {
    if offers != [] {
      var n := |offers| - 1;
      OffersStaySound(root, stored, offers[..n]);
      OneOffer(root, AfterOffers(root, stored, offers[..n]), offers[n]);
    }
  }

  lemma {:induction false} StoredWasOffered(root: NodeId, stored: Option<SignedPolicy>, offers: seq<Offer>)
    requires Sound(root, stored)
    ensures var after := AfterOffers(root, stored, offers);
      after == stored || IsGoodOffer(root, offers, |offers|, after)
  {
    if offers != [] {
      var n := |offers| - 1;
      var before := AfterOffers(root, stored, offers[..n]);
      OffersStaySound(root, stored, offers[..n]);
      StoredWasOffered(root, stored, offers[..n]);
      OneOffer(root, before, offers[n]);
      assert offers == offers[..n] + [offers[n]];
      StillGood(root, offers[..n], offers[n], AfterOffers(root, stored, offers));
    }
  }

  lemma {:induction false} NoneWasNewer(root: NodeId, stored: Option<SignedPolicy>, offers: seq<Offer>, o: Offer)
    requires Sound(root, stored) && o in offers && Good(root, o)
    ensures var after := AfterOffers(root, stored, offers);
      after.Some? && o.candidate.head.head.version <= VersionOf(after)
  {
    var n := |offers| - 1;
    OffersStaySound(root, stored, offers[..n]);
    OneOffer(root, AfterOffers(root, stored, offers[..n]), offers[n]);
    if o in offers[..n] {
      NoneWasNewer(root, stored, offers[..n], o);
    } else {
      assert offers == offers[..n] + [offers[n]];
    }
  }

  /**
    Over every run of offers, to a store that holds a policy which verifies or none: what is stored always
    verifies; it is what was there at the start, or one of the good offers made since; and no good offer was
    of a higher version.
   */
  lemma OffersKeep(root: NodeId, stored: Option<SignedPolicy>, offers: seq<Offer>)
    requires Sound(root, stored)
    ensures var after := AfterOffers(root, stored, offers);
      && Sound(root, after) && VersionOf(stored) <= VersionOf(after)
      && (after == stored || IsGoodOffer(root, offers, |offers|, after))
      && (forall o :: o in offers && Good(root, o) ==>
            after.Some? && o.candidate.head.head.version <= VersionOf(after))
  {
    OffersStaySound(root, stored, offers);
    StoredWasOffered(root, stored, offers);
    forall o | o in offers && Good(root, o)
      ensures var after := AfterOffers(root, stored, offers);
        after.Some? && o.candidate.head.head.version <= VersionOf(after)
    {
      NoneWasNewer(root, stored, offers, o);
    }
  }

  lemma StillGood(root: NodeId, offers: seq<Offer>, o: Offer, after: Option<SignedPolicy>)
    ensures IsGoodOffer(root, offers, |offers|, after) ==> IsGoodOffer(root, offers + [o], |offers| + 1, after)
    ensures Good(root, o) && after == Some(o.candidate) ==> IsGoodOffer(root, offers + [o], |offers| + 1, after)
  {
    var more := offers + [o];
    if k :| 0 <= k < |offers| && Good(root, offers[k]) && after == Some(offers[k].candidate) {
      assert more[k] == offers[k];
    }
    assert more[|offers|] == o;
  }

  /**
    So whoever serves the offers, and in whatever order, under ideal signatures an empty store only ever
    holds a policy that the root signed, head and items.
   */
  lemma OffersAreTheRoots(root: NodeId, signings: seq<Signing>, offers: seq<Offer>)
    requires forall o :: o in offers ==> Unforged(root, signings, o.candidate.head.sig)
    ensures var after := AfterOffers(root, None, offers);
      after.Some? ==> exists s :: s in signings && SignWith(s.policy, root, s.previous) == Ok(after.value)
  {
    var after := AfterOffers(root, None, offers);
    OffersKeep(root, None, offers);
    if after.Some? {
      var k :| 0 <= k < |offers| && Good(root, offers[k]) && after == Some(offers[k].candidate);
      assert offers[k] in offers;
      NoForging(root, signings, after.value);
    }
  }

  /**
    The store's rule is the one by which the protocol's directories move on: where the store holds the policy
    whose head the directory holds, or neither holds any, a policy that verifies is taken by the one exactly
    when its head may be by the other.
   */
  lemma ProtocolAdoptsAlike(
    net: Network, w: World, directory: NodeId, stored: Option<SignedPolicy>, candidate: SignedPolicy, clock: int)
    requires directory in net.honest && Showable(net, w, candidate.head.sig)
    requires Sound(net.root, stored) && VerifyPolicy(candidate, net.root).Ok?
    requires stored.Some? <==> directory in w.holds
    requires stored.Some? ==> w.holds[directory] == stored.value.head
    ensures Enabled(net, w, Step.Adopt(directory, candidate.head, clock))
            <==> Adopts(net.root, stored, candidate, clock) == Ok(true)
  {
  }
}
