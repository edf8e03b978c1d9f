/** What every run of deliveries and readings of a mailbox keeps. */
module MailboxLaws {
  import opened Prelude
  import opened Terms
  import opened Mailboxes

  // ---------------------------------------------------------------------------
  // Walking a list of files
  // ---------------------------------------------------------------------------

  lemma {:induction false} StoreEachIs(box: Box, messages: seq<PushMessage>)
    requires Consistent(box)
    ensures var after := box.StoreEach(messages);
      && Consistent(after) && after.read == box.read && |after.unread| >= |box.unread|
      && (forall id :: id in box.unread ==> id in after.unread && after.unread[id] == box.unread[id])
      && (forall m :: m in messages ==> after.Holds(m.id))
      && (forall id :: id in after.unread ==> id in box.unread || after.unread[id] in messages)
      && (|after.unread| == |box.unread| ==> after == box)
  {
    if messages != [] {
      var init, last := messages[..|messages| - 1], messages[|messages| - 1];
      assert messages == init + [last];
      StoreEachIs(box, init);
      StoreOneConsistent(box.StoreEach(init), last);
    }
  }

  /** The files named by `ids`, renamed from one folder into the other. */
  ghost predicate Moved(before: Box, after: Box, ids: seq<PushId>) {
    && (forall id :: id in after.unread <==> id in before.unread && id !in ids)
    && (forall id :: id in after.read <==> id in before.read || id in ids)
    && (forall id :: id in after.unread ==> after.unread[id] == before.unread[id])
    && (forall id :: id in after.read ==>
          || (id in before.unread && after.read[id] == before.unread[id])
          || (id in before.read && after.read[id] == before.read[id]))
    && |after.unread| == |before.unread| - |ids|
  }

  lemma {:induction false} MoveEachIs(box: Box, ids: seq<PushId>, evicting: bool)
    requires Consistent(box) && Distinct(ids) && forall id :: id in ids ==> id in box.unread
    ensures Consistent(box.MoveEach(ids, evicting)) && Moved(box, box.MoveEach(ids, evicting), ids)
  {
    if ids != [] {
      var init, last := ids[..|ids| - 1], ids[|ids| - 1];
      assert ids == init + [last] && last !in init;
      MoveEachIs(box, init, evicting);
      MoveOneConsistent(box.MoveEach(init, evicting), last, evicting);
      assert |box.MoveEach(init, evicting).unread.Keys - {last}| == |box.MoveEach(init, evicting).unread| - 1;
    }
  }

  lemma {:induction false} TrimEachIs(box: Box, ids: seq<PushId>)
    requires Consistent(box) && Distinct(ids) && forall id :: id in ids ==> id in box.read
    ensures var after := box.TrimEach(ids);
      && Consistent(after) && after.unread == box.unread
      && (forall id :: id in after.read <==> id in box.read && id !in ids)
      && (forall id :: id in after.read ==> after.read[id] == box.read[id])
      && |after.read| == |box.read| - |ids|
  {
    if ids != [] {
      var init, last := ids[..|ids| - 1], ids[|ids| - 1];
      assert ids == init + [last] && last !in init;
      TrimEachIs(box, init);
      TrimOneConsistent(box.TrimEach(init), last);
      assert |box.TrimEach(init).read.Keys - {last}| == |box.TrimEach(init).read| - 1;
    }
  }

  // ---------------------------------------------------------------------------
  // One delivery, one reading
  // ---------------------------------------------------------------------------

  /**
    A delivery acknowledges only what it holds, loses nothing it held, never leaves more than the cap
    unread, and evicts only messages older than every one it keeps unread, as few as the cap demands.
   */
  lemma DeliveryKeeps(box: Box, messages: seq<PushMessage>)
    requires Consistent(box) && |box.unread| <= MAX_UNREAD
    ensures var (stored, after) := (box.StoreEach(messages), box.Store(messages));
      && Consistent(after) && |after.unread| <= MAX_UNREAD
      && (forall m :: m in messages ==> after.Holds(m.id))
      && (forall id :: box.Holds(id) ==> after.Holds(id))
      && (forall id :: id in after.unread ==> id in stored.unread && after.unread[id] == stored.unread[id])
      && (forall a, b :: a in stored.unread && a !in after.unread && b in after.unread ==>
            Older(Stamp(stored.unread, a), Stamp(stored.unread, b)))
      && |after.unread| == (if |stored.unread| > MAX_UNREAD then MAX_UNREAD else |stored.unread|)
  {
    StoreEachIs(box, messages);
    var stored := box.StoreEach(messages);
    if |stored.unread| > |box.unread| {
      OldestAreOldest(stored.unread, MAX_UNREAD);
      MoveEachIs(stored, Oldest(stored.unread, MAX_UNREAD), true);
    }
  }

  /**
    A reading returns every unread message, oldest first, leaves none unread, and then forgets the oldest
    read ones, as few as the cap demands: each is older than every one remembered.
   */
  lemma ReadingKeeps(box: Box)
    requires Consistent(box)
    ensures var (taken, after) := (box.MoveEach(InOrder(box.unread), false), box.Take());
      && Consistent(after) && after.unread == map[] && |after.read| <= MAX_READ
      && (forall id :: box.Holds(id) <==> id in taken.read)
      && (forall id :: id in after.read ==> id in taken.read && after.read[id] == taken.read[id])
      && (forall a, b :: a in taken.read && a !in after.read && b in after.read ==>
            Older(Stamp(taken.read, a), Stamp(taken.read, b)))
      && |after.read| == (if |taken.read| > MAX_READ then MAX_READ else |taken.read|)
  {
    InOrderCorrect(box.unread);
    InOrderDistinct(box.unread);
    MoveEachIs(box, InOrder(box.unread), false);
    var taken := box.MoveEach(InOrder(box.unread), false);
    OldestAreOldest(taken.read, MAX_READ);
    TrimEachIs(taken, Oldest(taken.read, MAX_READ));
    assert box.Take().unread.Keys == {};
  }

  /** A batch of which every message is already held, unread or read, changes nothing at all. */
  lemma {:induction false} RedeliveryChangesNothing(box: Box, messages: seq<PushMessage>)
    requires forall m :: m in messages ==> box.Holds(m.id)
    ensures box.StoreEach(messages) == box && box.Store(messages) == box
  {
    if messages != [] {
      RedeliveryChangesNothing(box, messages[..|messages| - 1]);
      assert messages[|messages| - 1] in messages;
    }
  }

  // ---------------------------------------------------------------------------
  // Runs
  // ---------------------------------------------------------------------------

  datatype Op = Deliver(messages: seq<PushMessage>) | Read

  function AfterOp(box: Box, op: Op): Box {
    match op
    case Deliver(messages) => box.Store(messages)
    case Read => box.Take()
  }

  function AfterAll(ops: seq<Op>): Box {
    if ops == [] then EMPTY else AfterOp(AfterAll(ops[..|ops| - 1]), ops[|ops| - 1])
  }

  /** Every run, from an empty mailbox, stays consistent and within the unread cap. */
  lemma {:induction false} RunKeeps(ops: seq<Op>)
    ensures Consistent(AfterAll(ops)) && |AfterAll(ops).unread| <= MAX_UNREAD
  {
    if ops != [] {
      var init, last := ops[..|ops| - 1], ops[|ops| - 1];
      RunKeeps(init);
      match last {
        case Deliver(messages) => DeliveryKeeps(AfterAll(init), messages);
        case Read => ReadingKeeps(AfterAll(init));
      }
    }
  }

  // ---------------------------------------------------------------------------
  // Age, said of the messages
  // ---------------------------------------------------------------------------

  lemma StampIs(folder: Folder, id: PushId)
    requires id in folder
    ensures Stamp(folder, id) == (folder[id].atMs, id)
  {
  }

  lemma ListedInOrder(folder: Folder, i: nat, j: nat)
    requires (forall id :: id in folder ==> folder[id].id == id) && i < j < |Listed(folder)|
    ensures var (m, n) := (Listed(folder)[i], Listed(folder)[j]);
      m.atMs < n.atMs || (m.atMs == n.atMs && m.id < n.id)
  {
    InOrderCorrect(folder);
    ListedIs(folder);
    StampIs(folder, InOrder(folder)[i]);
    StampIs(folder, InOrder(folder)[j]);
  }

  /** After every run, what the next reading returns is in order of the time each message was sent, then of id. */
  lemma TakenInOrder(ops: seq<Op>, i: nat, j: nat)
    requires i < j < |Listed(AfterAll(ops).unread)|
    ensures var (m, n) := (Listed(AfterAll(ops).unread)[i], Listed(AfterAll(ops).unread)[j]);
      m.atMs < n.atMs || (m.atMs == n.atMs && m.id < n.id)
  {
    RunKeeps(ops);
    ListedInOrder(AfterAll(ops).unread, i, j);
  }

  /** After every run, what the next delivery evicts was sent before every message it leaves unread. */
  lemma EvictedAreOldest(ops: seq<Op>, messages: seq<PushMessage>, a: PushId, b: PushId)
    requires var (stored, after) := (AfterAll(ops).StoreEach(messages), AfterAll(ops + [Deliver(messages)]));
      a in stored.unread && a !in after.unread && b in after.unread
    ensures var (stored, after) := (AfterAll(ops).StoreEach(messages), AfterAll(ops + [Deliver(messages)]));
      var (m, n) := (stored.unread[a], after.unread[b]);
      m.atMs < n.atMs || (m.atMs == n.atMs && a < b)
  {
    var box := AfterAll(ops);
    assert (ops + [Deliver(messages)])[..|ops|] == ops;
    RunKeeps(ops);
    DeliveryKeeps(box, messages);
    StampIs(box.StoreEach(messages).unread, a);
    StampIs(box.StoreEach(messages).unread, b);
  }

  /** And what the next reading forgets was sent before every message it remembers. */
  lemma TrimmedAreOldest(ops: seq<Op>, a: PushId, b: PushId)
    requires var (before, after) := (AfterAll(ops), AfterAll(ops + [Op.Read]));
      before.Holds(a) && !after.Holds(a) && b in after.read
    ensures var (before, after) := (AfterAll(ops), AfterAll(ops + [Op.Read]));
      var (m, n) := (if a in before.unread then before.unread[a] else before.read[a], after.read[b]);
      m.atMs < n.atMs || (m.atMs == n.atMs && a < b)
  {
    var box := AfterAll(ops);
    assert (ops + [Op.Read])[..|ops|] == ops;
    RunKeeps(ops);
    ReadingKeeps(box);
    InOrderCorrect(box.unread);
    InOrderDistinct(box.unread);
    MoveEachIs(box, InOrder(box.unread), false);
    var taken := box.MoveEach(InOrder(box.unread), false);
    StampIs(taken.read, a);
    StampIs(taken.read, b);
  }

  // ---------------------------------------------------------------------------
  // The life of one id
  // ---------------------------------------------------------------------------

  /** Once read, an id stays read until it is trimmed. */
  lemma {:induction false} ReadUntilTrimmed(log: seq<Event>, id: PushId, i: nat, k: nat)
    requires i < k <= |log| && log[i] == Returned(id)
    requires PlaceAfter(log[..k], id).Some?
    requires forall n :: i < n < k ==> log[n] != Trimmed(id)
    ensures PlaceAfter(log[..k], id) == Some(Place.Read)
    decreases k
  {
    assert log[..k][..k - 1] == log[..k - 1];
    if k - 1 > i {
      ReadUntilTrimmed(log, id, i, k - 1);
    }
  }

  lemma {:induction false} PrefixesHappen(log: seq<Event>, id: PushId, k: nat)
    requires k <= |log| && PlaceAfter(log, id).Some?
    ensures PlaceAfter(log[..k], id).Some?
    decreases |log|
  {
    if k == |log| {
      assert log[..k] == log;
    } else {
      PrefixesHappen(log[..|log| - 1], id, k);
      assert log[..|log| - 1][..k] == log[..k];
    }
  }

  lemma TwiceReturned(log: seq<Event>, id: PushId, i: nat, j: nat)
    requires PlaceAfter(log, id).Some?
    requires i < j < |log| && log[i] == Returned(id) && log[j] == Returned(id)
    ensures exists k :: i < k < j && log[k] == Trimmed(id)
  {
    PrefixesHappen(log, id, j);
    PrefixesHappen(log, id, j + 1);
    assert log[..j + 1][..j] == log[..j];
    if forall k :: i < k < j ==> log[k] != Trimmed(id) {
      ReadUntilTrimmed(log, id, i, j);
    }
  }

  /** The second time an id is returned, it was trimmed from the read messages in between. */
  lemma ReturnedAgainWasTrimmed(ops: seq<Op>, id: PushId, i: nat, j: nat)
    requires var log := AfterAll(ops).log;
      i < j < |log| && log[i] == Returned(id) && log[j] == Returned(id)
    ensures exists k :: i < k < j && AfterAll(ops).log[k] == Trimmed(id)
  {
    RunKeeps(ops);
    assert PlaceAfter(AfterAll(ops).log, id) == Some(PlaceIn(AfterAll(ops), id));
    TwiceReturned(AfterAll(ops).log, id, i, j);
  }

  /** How often each thing happened to an id, against where the id now is. */
  lemma {:induction false} Tally(log: seq<Event>, id: PushId)
    requires PlaceAfter(log, id).Some?
    ensures var (m, place) := (multiset(log), PlaceAfter(log, id).value);
      && m[Stored(id)] == m[Trimmed(id)] + (if place == Nowhere then 0 else 1)
      && m[Stored(id)] == m[Evicted(id)] + m[Returned(id)] + (if place == Unread then 1 else 0)
  {
    if log != [] {
      var init, last := log[..|log| - 1], log[|log| - 1];
      assert log == init + [last];
      Tally(init, id);
    }
  }

  /**
    Conservation over every run: every storing of an id is accounted for, as unread now, read now, or
    trimmed; and every one that is no longer unread was either returned or evicted, once.
   */
  lemma StoredIsConserved(ops: seq<Op>, id: PushId)
    ensures var (box, m) := (AfterAll(ops), multiset(AfterAll(ops).log));
      && m[Stored(id)] == m[Trimmed(id)] + (if id in box.unread then 1 else 0) + (if id in box.read then 1 else 0)
      && m[Stored(id)] == m[Evicted(id)] + m[Returned(id)] + (if id in box.unread then 1 else 0)
  {
    RunKeeps(ops);
    var box := AfterAll(ops);
    assert PlaceAfter(box.log, id) == Some(PlaceIn(box, id));
    assert !(id in box.unread.Keys && id in box.read.Keys);
    Tally(box.log, id);
  }
}
