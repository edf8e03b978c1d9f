/** A directory's signed word that a head is the newest, and the bounded set of words a node keeps. */
module Freshness {
  import opened Prelude
  import opened Terms

  const FRESH_V1 := 1
  const CLOCK_SKEW_SECS := 60
  const MAX_FRESH_SET := 16

  function FreshSignedBytes(f: Fresh): Signable {
    FreshBody(f.format, f.fabric, f.directory, f.version, f.head, f.at, f.until, f.alg)
  }

  /** A directory's word for `head`, from `at` until `until`. */
  function SignFresh(directory: NodeId, head: SignedPolicyHead, at: int, until: int): Result<Fresh, Error> {
    var _ :- Require(directory in head.head.directories, NotADirectory);
    var _ :- Require(at <= until, InvalidPolicy);
    var _ :- Require(until - at <= head.head.freshSecs, FreshTooLong);
    var body := FreshBody(FRESH_V1, head.head.fabric, directory, head.head.version, HeadHash(head), at, until, Ed25519);
    Ok(Fresh(FRESH_V1, head.head.fabric, directory, head.head.version, HeadHash(head), at, until, Ed25519,
             Sign(directory, body)))
  }

  /** Whether `f` vouches for exactly `head`, whatever the time. */
  function VerifyFresh(f: Fresh, head: SignedPolicyHead): Result<(), Error> {
    var _ :- Require(f.format == FRESH_V1, UnsupportedVersion);
    var _ :- Require(f.alg == Ed25519, UnsupportedAlgorithm);
    var _ :- Require(f.fabric == head.head.fabric && f.version == head.head.version && f.head == HeadHash(head),
                     FreshMismatch);
    var _ :- Require(f.directory in head.head.directories, NotADirectory);
    var _ :- Require(f.at <= f.until, InvalidPolicy);
    var _ :- Require(f.until - f.at <= head.head.freshSecs, FreshTooLong);
    CheckSignature(f.directory, FreshSignedBytes(f), f.sig)
  }

  predicate IsCurrent(f: Fresh, now: int) {
    f.at - CLOCK_SKEW_SECS <= now <= f.until
  }

  /** Whether `f` lets a caller dialing `host` take `head` as current at `now`. */
  function Vouches(f: Fresh, head: SignedPolicyHead, host: NodeId, now: int): Result<(), Error> {
    var _ :- VerifyFresh(f, head);
    var _ :- Require(IsCurrent(f, now), FreshLapsed);
    var onlyTheHost := head.head.directories == [host];
    Require(f.directory != host || onlyTheHost, SelfVouched)
  }

  /** A word verifies for a head exactly when some directory's key made it, as signing makes it. */
  lemma FreshVerifiesIffSigned(f: Fresh, head: SignedPolicyHead)
    ensures VerifyFresh(f, head).Ok? <==> SignFresh(f.directory, head, f.at, f.until) == Ok(f)
  {
  }

  // ---------------------------------------------------------------------------
  // 64-bit saturation
  // ---------------------------------------------------------------------------

  predicate IsI64(x: int) {
    -0x8000_0000_0000_0000 <= x <= 0x7FFF_FFFF_FFFF_FFFF
  }

  function SaturatingSub(x: int, y: int): (r: int)
    ensures IsI64(r)
  {
    if x - y < -0x8000_0000_0000_0000 then -0x8000_0000_0000_0000
    else if x - y > 0x7FFF_FFFF_FFFF_FFFF then 0x7FFF_FFFF_FFFF_FFFF
    else x - y
  }

  /** On 64-bit times the saturating tests of the code and the unbounded ones here decide alike. */
  lemma SaturationDecidesAlike(f: Fresh, now: int, freshSecs: nat)
    requires IsI64(f.at) && IsI64(f.until) && IsI64(now) && freshSecs <= 0xFFFF_FFFF
    ensures IsCurrent(f, now) <==> now >= SaturatingSub(f.at, CLOCK_SKEW_SECS) && now <= f.until
    ensures f.until - f.at <= freshSecs <==> SaturatingSub(f.until, f.at) <= freshSecs
  {
  }

  // ---------------------------------------------------------------------------
  // The set
  // ---------------------------------------------------------------------------

  /** Ranked by version, then whether current, then how long it lasts. */
  predicate RankAtMost(a: Fresh, b: Fresh, now: int) {
    || a.version < b.version
    || (a.version == b.version
        && ((!IsCurrent(a, now) && IsCurrent(b, now))
            || (IsCurrent(a, now) == IsCurrent(b, now) && a.until <= b.until)))
  }

  lemma RankTransitive(a: Fresh, b: Fresh, c: Fresh, now: int)
    requires RankAtMost(a, b, now) && RankAtMost(b, c, now)
    ensures RankAtMost(a, c, now)
  {
  }

  lemma RankTotal(a: Fresh, b: Fresh, now: int)
    ensures RankAtMost(a, b, now) || RankAtMost(b, a, now)
  {
  }

  predicate OnePerSigner(words: seq<Fresh>) {
    forall i, j :: 0 <= i < j < |words| ==> words[i].directory != words[j].directory
  }

  /** The place of `directory`'s word, or the length of the list. */
  function PlaceOf(words: seq<Fresh>, directory: NodeId): (i: nat)
    ensures i <= |words|
    ensures i < |words| ==> words[i].directory == directory
    ensures forall j :: 0 <= j < i ==> words[j].directory != directory
  {
    if words == [] || words[0].directory == directory then 0
    else
      var i := PlaceOf(words[1..], directory);
      assert forall j :: 1 <= j < i + 1 ==> words[j] == words[1..][j - 1];
      i + 1
  }

  /** The place of the first of the worst-ranked words. */
  function WorstPlace(words: seq<Fresh>, now: int): (w: nat)
    requires words != []
    ensures w < |words|
    ensures forall j :: 0 <= j < |words| ==> RankAtMost(words[w], words[j], now)
    ensures forall j :: 0 <= j < w ==> !RankAtMost(words[j], words[w], now)
  {
    var n := |words| - 1;
    if n == 0 then 0
    else
      var w := WorstPlace(words[..n], now);
      if RankAtMost(words[w], words[n], now) then w else n
  }

  function Without(words: seq<Fresh>, at: nat): (rest: seq<Fresh>)
    requires at < |words|
    ensures |rest| == |words| - 1
    ensures forall j :: 0 <= j < at ==> rest[j] == words[j]
    ensures forall j :: at <= j < |rest| ==> rest[j] == words[j + 1]
  {
    words[..at] + words[at + 1..]
  }

  /** The words held once `f` is offered, and whether it was kept. */
  function Inserted(words: seq<Fresh>, f: Fresh, now: int): (seq<Fresh>, bool) {
    var i := PlaceOf(words, f.directory);
    if i < |words| then
      if RankAtMost(f, words[i], now) then (words, false) else (words[i := f], true)
    else if |words| >= MAX_FRESH_SET then
      var w := WorstPlace(words, now);
      if RankAtMost(f, words[w], now) then (words, false) else (Without(words, w) + [f], true)
    else (words + [f], true)
  }

  predicate Holds(words: seq<Fresh>, directory: NodeId) {
    exists w | w in words :: w.directory == directory
  }

  /** One word per signer, each offered, and each the best its signer ever offered. */
  ghost predicate SignersBest(words: seq<Fresh>, offered: seq<Fresh>, now: int) {
    && OnePerSigner(words)
    && |words| <= MAX_FRESH_SET
    && (forall w :: w in words ==> w in offered)
    && (forall w, o :: w in words && o in offered && o.directory == w.directory ==> RankAtMost(o, w, now))
  }

  /** Whether `o`, of a signer left out, has a full set above it. */
  ghost predicate RightlyOut(words: seq<Fresh>, o: Fresh, now: int) {
    |words| == MAX_FRESH_SET && forall w :: w in words ==> RankAtMost(o, w, now)
  }

  /**
    `words` is a best selection of everything offered: one word per signer, each its signer's
    best, and a signer is left out only by a full set none of whose words ranks below its best.
   */
  ghost predicate BestOf(words: seq<Fresh>, offered: seq<Fresh>, now: int) {
    && SignersBest(words, offered, now)
    && (forall o :: o in offered && !Holds(words, o.directory) ==> RightlyOut(words, o, now))
  }

  lemma PlaceOfHeld(words: seq<Fresh>, directory: NodeId)
    ensures PlaceOf(words, directory) < |words| <==> Holds(words, directory)
  {
  }

  /** A word replaced by another of its signer. */
  lemma ReplaceKeepsSigners(words: seq<Fresh>, offered: seq<Fresh>, f: Fresh, i: nat, now: int)
    requires SignersBest(words, offered, now)
    requires i < |words| && words[i].directory == f.directory && RankAtMost(words[i], f, now)
    ensures SignersBest(words[i := f], offered + [f], now)
    ensures forall d :: Holds(words, d) <==> Holds(words[i := f], d)
  {
    var after := words[i := f];
    assert after[i] in after && words[i] in words;
    forall w, o | w in after && o in offered + [f] && o.directory == w.directory ensures RankAtMost(o, w, now) {
      if w == f && o in offered {
        RankTransitive(o, words[i], f, now);
      }
    }
    forall d ensures Holds(words, d) <==> Holds(after, d) {
      if Holds(words, d) {
        var j :| 0 <= j < |words| && words[j].directory == d;
        assert after[j] in after;
      }
    }
  }

  lemma StillOut(words: seq<Fresh>, offered: seq<Fresh>, o: Fresh, f: Fresh, i: nat, now: int)
    requires BestOf(words, offered, now)
    requires i < |words| && words[i].directory == f.directory && RankAtMost(words[i], f, now)
    requires o in offered + [f] && !Holds(words, o.directory)
    ensures RightlyOut(words[i := f], o, now)
  {
  }

  /** A better word of a signer already held takes its place; any other leaves the set as it was. */
  lemma ReplaceKeepsBest(words: seq<Fresh>, offered: seq<Fresh>, f: Fresh, now: int)
    requires BestOf(words, offered, now)
    requires PlaceOf(words, f.directory) < |words|
    ensures BestOf(Inserted(words, f, now).0, offered + [f], now)
  {
    var i := PlaceOf(words, f.directory);
    assert words[i] in words;
    RankTotal(f, words[i], now);
    if RankAtMost(f, words[i], now) {
      SignerKnown(words, offered, f, i, now);
    } else {
      ReplaceKeepsSigners(words, offered, f, i, now);
      forall o | o in offered + [f] && !Holds(words[i := f], o.directory) ensures RightlyOut(words[i := f], o, now) {
        StillOut(words, offered, o, f, i, now);
      }
    }
  }

  lemma SignerKnown(words: seq<Fresh>, offered: seq<Fresh>, f: Fresh, i: nat, now: int)
    requires BestOf(words, offered, now)
    requires i < |words| && words[i].directory == f.directory && RankAtMost(f, words[i], now)
    ensures BestOf(words, offered + [f], now)
  {
  }

  /** A new signer with room for it. */
  lemma PushKeepsBest(words: seq<Fresh>, offered: seq<Fresh>, f: Fresh, now: int)
    requires BestOf(words, offered, now)
    requires !Holds(words, f.directory) && |words| < MAX_FRESH_SET
    ensures BestOf(words + [f], offered + [f], now)
  {
  }

  /** A new signer's word put after some of the words held. */
  lemma NewSigner(words: seq<Fresh>, rest: seq<Fresh>, offered: seq<Fresh>, f: Fresh, now: int)
    requires SignersBest(words, offered, now)
    requires OnePerSigner(rest) && |rest| < MAX_FRESH_SET && forall w :: w in rest ==> w in words
    requires !Holds(words, f.directory)
    requires forall o :: o in offered && o.directory == f.directory ==> RankAtMost(o, f, now)
    ensures SignersBest(rest + [f], offered + [f], now)
  {
  }

  /** A full set that turns a new signer away. */
  lemma RefusalKeepsBest(words: seq<Fresh>, offered: seq<Fresh>, f: Fresh, now: int)
    requires BestOf(words, offered, now)
    requires !Holds(words, f.directory) && |words| == MAX_FRESH_SET
    requires RankAtMost(f, words[WorstPlace(words, now)], now)
    ensures BestOf(words, offered + [f], now)
  {
  }

  lemma WithoutMembers(words: seq<Fresh>, at: nat, w: Fresh)
    requires at < |words| && OnePerSigner(words)
    ensures OnePerSigner(Without(words, at))
    ensures w in Without(words, at) <==> w in words && w != words[at]
  {
  }

  /** A full set in which a new signer takes the worst word's place. */
  lemma DisplaceKeepsBest(words: seq<Fresh>, offered: seq<Fresh>, f: Fresh, at: nat, now: int)
    requires BestOf(words, offered, now)
    requires !Holds(words, f.directory) && |words| == MAX_FRESH_SET && at < |words|
    requires forall w :: w in words ==> RankAtMost(words[at], w, now)
    requires RankAtMost(words[at], f, now)
    ensures BestOf(Without(words, at) + [f], offered + [f], now)
  {
    var rest := Without(words, at);
    forall w ensures OnePerSigner(rest) && (w in rest <==> w in words && w != words[at]) {
      WithoutMembers(words, at, w);
    }
    forall o | o in offered && o.directory == f.directory ensures RankAtMost(o, f, now) {
      assert words[at] in words && RightlyOut(words, o, now);
      RankTransitive(o, words[at], f, now);
    }
    NewSigner(words, rest, offered, f, now);
    forall o | o in offered + [f] && !Holds(rest + [f], o.directory) ensures RightlyOut(rest + [f], o, now) {
      assert f in rest + [f];
      LeftOutIsNoBetter(words, offered, f, o, at, now);
    }
  }

  lemma LeftOutIsNoBetter(words: seq<Fresh>, offered: seq<Fresh>, f: Fresh, o: Fresh, at: nat, now: int)
    requires BestOf(words, offered, now) && |words| == MAX_FRESH_SET && at < |words|
    requires forall w :: w in words ==> RankAtMost(words[at], w, now)
    requires RankAtMost(words[at], f, now)
    requires o in offered && !Holds(Without(words, at) + [f], o.directory)
    ensures RightlyOut(Without(words, at) + [f], o, now)
  {
    var rest, worst := Without(words, at), words[at];
    assert worst in words;
    if Holds(words, o.directory) {
      var w :| w in words && w.directory == o.directory;
      WithoutMembers(words, at, w);
      assert w in rest ==> w in rest + [f];
      assert w == worst;
    }
    assert RankAtMost(o, worst, now);
    forall w | w in rest + [f] ensures RankAtMost(o, w, now) {
      WithoutMembers(words, at, w);
      RankTransitive(o, worst, w, now);
    }
  }

  /** One more offer, whatever it is, leaves the set a best selection of all that was offered. */
  lemma InsertKeepsBest(words: seq<Fresh>, offered: seq<Fresh>, f: Fresh, now: int)
    requires BestOf(words, offered, now)
    ensures BestOf(Inserted(words, f, now).0, offered + [f], now)
  {
    PlaceOfHeld(words, f.directory);
    if PlaceOf(words, f.directory) < |words| {
      ReplaceKeepsBest(words, offered, f, now);
    } else if |words| < MAX_FRESH_SET {
      PushKeepsBest(words, offered, f, now);
    } else {
      var at := WorstPlace(words, now);
      if RankAtMost(f, words[at], now) {
        RefusalKeepsBest(words, offered, f, now);
      } else {
        RankTotal(f, words[at], now);
        DisplaceKeepsBest(words, offered, f, at, now);
      }
    }
  }

  /** The answer says whether the word was kept: if not, nothing changed; if so, it is held, last or in place. */
  lemma InsertSays(words: seq<Fresh>, f: Fresh, now: int)
    ensures var (after, kept) := Inserted(words, f, now);
      && (!kept ==> after == words)
      && (kept ==> f in after)
      && (kept && OnePerSigner(words) ==>
            forall w :: w in words && w.directory == f.directory ==> !RankAtMost(f, w, now))
  {
    var after := Inserted(words, f, now).0;
    var i := PlaceOf(words, f.directory);
    if i < |words| {
      assert words[i := f][i] == f;
    } else {
      assert after != words && |after| > 0 ==> after[|after| - 1] == f;
    }
    forall w | w in words && w.directory == f.directory && OnePerSigner(words) ensures i < |words| && w == words[i] {
      var j :| 0 <= j < |words| && words[j] == w;
      assert i <= j;
    }
  }

  function InsertedAll(offered: seq<Fresh>, now: int): seq<Fresh> {
    if offered == [] then []
    else Inserted(InsertedAll(offered[..|offered| - 1], now), offered[|offered| - 1], now).0
  }

  /**
    After any sequence of offers at one time the set is a best selection of them: displaced signers
    that come back, and refused ones that return with a better word, are all accounted for.
   */
  lemma {:induction false} AnyOffersKeepBest(offered: seq<Fresh>, now: int)
    ensures BestOf(InsertedAll(offered, now), offered, now)
  {
    if offered != [] {
      var before, last := offered[..|offered| - 1], offered[|offered| - 1];
      AnyOffersKeepBest(before, now);
      InsertKeepsBest(InsertedAll(before, now), before, last, now);
      assert offered == before + [last];
    }
  }

  /**
    After any sequence of offers at one time, said of versions and times alone.  The word held for a signer
    is of the highest version that signer ever offered; among those, it is one that is current if any was;
    and among the offers of that version that are current, or that are not if none is, it lasts longest.
   */
  lemma NewestIsHeld(offered: seq<Fresh>, now: int, w: Fresh, o: Fresh)
    requires w in InsertedAll(offered, now) && o in offered && o.directory == w.directory
    ensures o.version <= w.version
    ensures o.version == w.version && o.at - CLOCK_SKEW_SECS <= now <= o.until ==>
      w.at - CLOCK_SKEW_SECS <= now && o.until <= w.until
    ensures o.version == w.version && !(w.at - CLOCK_SKEW_SECS <= now <= w.until) ==>
      !(o.at - CLOCK_SKEW_SECS <= now <= o.until) && o.until <= w.until
  {
    AnyOffersKeepBest(offered, now);
  }

  /**
    And a signer is left out only when the set is full, of words none of which is of a lower version than
    anything it offered, nor, at the same version, not current or shorter where its own was current, nor
    shorter where neither is.
   */
  lemma LeftOutIsOlder(offered: seq<Fresh>, now: int, w: Fresh, o: Fresh)
    requires w in InsertedAll(offered, now) && o in offered
    requires forall v :: v in InsertedAll(offered, now) ==> v.directory != o.directory
    ensures |InsertedAll(offered, now)| == MAX_FRESH_SET
    ensures o.version <= w.version
    ensures o.version == w.version && o.at - CLOCK_SKEW_SECS <= now <= o.until ==>
      w.at - CLOCK_SKEW_SECS <= now && o.until <= w.until
    ensures o.version == w.version && !(w.at - CLOCK_SKEW_SECS <= now <= w.until) ==>
      !(o.at - CLOCK_SKEW_SECS <= now <= o.until) && o.until <= w.until
  {
    AnyOffersKeepBest(offered, now);
    assert RightlyOut(InsertedAll(offered, now), o, now);
  }

  /** Whether `f` may put a current word `w` out: it is for a newer head, or for this one, current, and lasts longer. */
  predicate Outlasts(f: Fresh, w: Fresh, now: int) {
    f.version > w.version || (f.version == w.version && IsCurrent(f, now) && f.until > w.until)
  }

  /** What one offer puts out, from its signer's place or from the worst one, it outlasts if that was current. */
  lemma InsertPutsOut(words: seq<Fresh>, f: Fresh, w: Fresh, now: int)
    requires w in words && w !in Inserted(words, f, now).0 && IsCurrent(w, now)
    ensures Outlasts(f, w, now)
  {
    var i := PlaceOf(words, f.directory);
    if i < |words| {
      if !RankAtMost(f, words[i], now) {
        ReplacedOnly(words, i, f, w);
      }
    } else if |words| >= MAX_FRESH_SET {
      var at := WorstPlace(words, now);
      if !RankAtMost(f, words[at], now) {
        RemovedOnly(words, at, f, w);
      }
    } else {
      assert w in words + [f];
    }
  }

  lemma ReplacedOnly(words: seq<Fresh>, i: nat, f: Fresh, w: Fresh)
    requires i < |words| && w in words
    ensures w == words[i] || w in words[i := f]
  {
    var j :| 0 <= j < |words| && words[j] == w;
    assert words[i := f][j] == if j == i then f else w;
  }

  lemma RemovedOnly(words: seq<Fresh>, at: nat, f: Fresh, w: Fresh)
    requires at < |words| && w in words
    ensures w == words[at] || w in Without(words, at) + [f]
  {
    var j :| 0 <= j < |words| && words[j] == w;
    if j != at {
      assert Without(words, at)[if j < at then j else j - 1] == w;
    }
  }

  /**
    Over any sequence of offers at one time, a current word once held goes only for one that outlasts it.
    So no word that is not current, of its own version or an older one, ever displaces or replaces a current
    word, whatever such a word says of its own end: a clock that runs ahead buys its words nothing.
   */
  lemma {:induction false} CurrentGoesOnlyForBetter(offered: seq<Fresh>, i: nat, j: nat, w: Fresh, now: int)
    requires i <= j <= |offered| && IsCurrent(w, now)
    requires w in InsertedAll(offered[..i], now) && w !in InsertedAll(offered[..j], now)
    ensures exists k :: i <= k < j && Outlasts(offered[k], w, now)
  {
    if i < j {
      assert offered[..j][..j - 1] == offered[..j - 1];
      if w in InsertedAll(offered[..j - 1], now) {
        InsertPutsOut(InsertedAll(offered[..j - 1], now), offered[j - 1], w, now);
      } else {
        CurrentGoesOnlyForBetter(offered, i, j - 1, w, now);
      }
    }
  }

  /** The same, read the other way: stale words, however many, leave every current word where it is. */
  lemma StaleWordsPutOutNothing(offered: seq<Fresh>, i: nat, j: nat, w: Fresh, now: int)
    requires i <= j <= |offered| && IsCurrent(w, now) && w in InsertedAll(offered[..i], now)
    requires forall k :: i <= k < j ==>
      offered[k].version < w.version || (offered[k].version == w.version && !IsCurrent(offered[k], now))
    ensures w in InsertedAll(offered[..j], now)
  {
    if w !in InsertedAll(offered[..j], now) {
      CurrentGoesOnlyForBetter(offered, i, j, w, now);
    }
  }

  /** The newest word from each directory, at most `MAX_FRESH_SET` of them. */
  class FreshSet {
    var words: seq<Fresh>

    ghost predicate Valid()
      reads this
    {
      OnePerSigner(words) && |words| <= MAX_FRESH_SET
    }

    constructor ()
      ensures words == []
    {
      words := [];
    }

    /** Where the signer's word is, if it has one. */
    method Position(directory: NodeId) returns (i: nat)
      ensures i == PlaceOf(words, directory)
    {
      i := 0;
      while i < |words| && words[i].directory != directory
        invariant 0 <= i <= |words|
        invariant forall j :: 0 <= j < i ==> words[j].directory != directory
      {
        i := i + 1;
      }
      assert i == PlaceOf(words, directory);
    }

    /** Where the first of the worst words is. */
    method Worst(now: int) returns (worst: nat)
      requires words != []
      ensures worst == WorstPlace(words, now)
    {
      worst := 0;
      for j := 1 to |words|
        invariant worst == WorstPlace(words[..j], now)
      {
        assert words[..j + 1][..j] == words[..j];
        if !RankAtMost(words[worst], words[j], now) {
          worst := j;
        }
      }
      assert words[..|words|] == words;
    }

    method Insert(f: Fresh, now: int) returns (kept: bool)
      requires Valid()
      modifies this
      ensures Valid()
      ensures (words, kept) == Inserted(old(words), f, now)
    {
      ghost var before := words;
      InsertKeepsBest(before, before, f, now) by {
        SelfBest(before, now);
      }
      var i := Position(f.directory);
      if i < |words| {
        if RankAtMost(f, words[i], now) {
          return false;
        }
        words := words[i := f];
        return true;
      }
      if |words| >= MAX_FRESH_SET {
        var worst := Worst(now);
        if RankAtMost(f, words[worst], now) {
          return false;
        }
        words := Without(words, worst);
      }
      words := words + [f];
      return true;
    }
  }

  /** One word per signer is a best selection of itself. */
  lemma SelfBest(words: seq<Fresh>, now: int)
    requires OnePerSigner(words) && |words| <= MAX_FRESH_SET
    ensures BestOf(words, words, now)
  {
  }

  // ---------------------------------------------------------------------------
  // Reading the set
  // ---------------------------------------------------------------------------

  function VerifiesFor(head: SignedPolicyHead): Fresh -> bool {
    (f: Fresh) => VerifyFresh(f, head).Ok?
  }

  function CurrentAt(head: SignedPolicyHead, now: int): Fresh -> bool {
    (f: Fresh) => VerifyFresh(f, head).Ok? && IsCurrent(f, now)
  }

  function VouchesFor(head: SignedPolicyHead, host: NodeId, now: int): Fresh -> bool {
    (f: Fresh) => Vouches(f, head, host, now).Ok?
  }

  /** The first word that vouches for `head` to a caller dialing `host`. */
  function FirstVouching(words: seq<Fresh>, head: SignedPolicyHead, host: NodeId, now: int): Option<Fresh> {
    First(words, VouchesFor(head, host, now))
  }

  /** What a host shows a caller: every word that verifies for its head and is current. */
  function CurrentFor(words: seq<Fresh>, head: SignedPolicyHead, now: int): seq<Fresh> {
    var current := Filter(words, CurrentAt(head, now));
    if |current| <= MAX_FRESH_SET then current else current[..MAX_FRESH_SET]
  }

  /**
    What is shown, said of the words themselves: those that some listed directory signed for this very head
    and that are current, in the order held, and never more than fit in a set.
   */
  lemma ShownAre(words: seq<Fresh>, head: SignedPolicyHead, now: int)
    ensures |CurrentFor(words, head, now)| <= MAX_FRESH_SET
    ensures CurrentFor(words, head, now) <= Filter(words, CurrentAt(head, now))
    ensures forall f :: f in CurrentFor(words, head, now) ==>
      f in words && SignFresh(f.directory, head, f.at, f.until) == Ok(f) && f.at - CLOCK_SKEW_SECS <= now <= f.until
    ensures |words| <= MAX_FRESH_SET ==> forall f ::
      f in words && SignFresh(f.directory, head, f.at, f.until) == Ok(f) && f.at - CLOCK_SKEW_SECS <= now <= f.until
      ==> f in CurrentFor(words, head, now)
  {
    forall f ensures VerifyFresh(f, head).Ok? <==> SignFresh(f.directory, head, f.at, f.until) == Ok(f) {
      FreshVerifiesIffSigned(f, head);
    }
    assert forall f :: f in CurrentFor(words, head, now) ==> f in Filter(words, CurrentAt(head, now));
  }

  function Unverified(words: seq<Fresh>, head: SignedPolicyHead): seq<Fresh> {
    if words == [] then []
    else
      var held, f := Unverified(words[..|words| - 1], head), words[|words| - 1];
      if VerifyFresh(f, head).Ok? then Inserted(held, f, f.at).0 else held
  }

  /** The set of `words` that verify against `head`, each ranked at its own signing time. */
  method FromUnverified(words: seq<Fresh>, head: SignedPolicyHead) returns (held: FreshSet)
    ensures fresh(held) && held.Valid()
    ensures held.words == Unverified(words, head)
  {
    held := new FreshSet();
    for i := 0 to |words|
      invariant fresh(held) && held.Valid()
      invariant held.words == Unverified(words[..i], head)
    {
      assert words[..i + 1][..i] == words[..i];
      if VerifyFresh(words[i], head).Ok? {
        var _ := held.Insert(words[i], words[i].at);
      }
    }
    assert words[..|words|] == words;
  }

  /**
    What the next word read does, said of versions and times alone.  One that does not verify does nothing.
    One that does is looked at when it was signed, when it is current: it takes its signer's place unless the
    word there was current then too and lasts as long; and a signer not there yet gets a place while there is
    one.
   */
  lemma NextWordRead(words: seq<Fresh>, head: SignedPolicyHead, f: Fresh, w: Fresh)
    requires w in Unverified(words, head) && w.directory == f.directory
    ensures VerifyFresh(f, head).Err? ==> Unverified(words + [f], head) == Unverified(words, head)
    ensures VerifyFresh(f, head).Ok? ==>
      (f in Unverified(words + [f], head) && (f == w || w !in Unverified(words + [f], head))
       <==> f == w || !(w.at - CLOCK_SKEW_SECS <= f.at && f.until <= w.until))
  {
    assert (words + [f])[..|words|] == words;
    var held := Unverified(words, head);
    ReadFits(words, head);
    var i :| 0 <= i < |held| && held[i] == w;
    assert PlaceOf(held, f.directory) == i;
    assert held[i := f][i] == f;
  }

  lemma {:induction false} ReadFits(words: seq<Fresh>, head: SignedPolicyHead)
    ensures forall w :: w in Unverified(words, head) ==> VerifyFresh(w, head).Ok?
    ensures OnePerSigner(Unverified(words, head)) && |Unverified(words, head)| <= MAX_FRESH_SET
  {
    if words != [] {
      var init, f := words[..|words| - 1], words[|words| - 1];
      ReadFits(init, head);
      var held := Unverified(init, head);
      SelfBest(held, f.at);
      InsertKeepsBest(held, held, f, f.at);
    }
  }

  /** Reading back a set's own words keeps, in order, exactly those that verify for the head. */
  lemma {:induction false} OwnWordsReadBack(words: seq<Fresh>, head: SignedPolicyHead)
    requires OnePerSigner(words) && |words| <= MAX_FRESH_SET
    ensures Unverified(words, head) == Filter(words, VerifiesFor(head))
  {
    if words != [] {
      var init, last := words[..|words| - 1], words[|words| - 1];
      OwnWordsReadBack(init, head);
      var kept := Filter(init, VerifiesFor(head));
      PlaceOfHeld(kept, last.directory);
      assert forall f :: f in kept ==> f in init;
    }
  }
}
