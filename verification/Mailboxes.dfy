/** The caller's mailbox: an at-least-once store with de-duplication, eviction and a bounded memory. */
module Mailboxes {
  import opened Prelude
  import opened Sorting
  import opened Terms

  const MAX_UNREAD := 256
  const MAX_READ := 1024

  /** Ids are 16 bytes compared in order, so numbers do. */
  type PushId = nat

  datatype PushMessage = PushMessage(
    id: PushId, sender: NodeId, recipient: NodeId, subject: string, body: string, atMs: int, expiresMs: int)

  type Folder = map<PushId, PushMessage>

  /** What a peer may hand this node: its own messages, to this node, not expired. */
  function Acceptable(messages: seq<PushMessage>, peer: NodeId, own: NodeId, nowMs: int): (r: seq<PushMessage>)
    ensures forall m :: m in r <==> m in messages && m.sender == peer && m.recipient == own && nowMs < m.expiresMs
  {
    Filter(messages, (m: PushMessage) => m.sender == peer && m.recipient == own && nowMs < m.expiresMs)
  }

  /** Each message is decided alone, and those kept stay in order, as often as they came. */
  lemma AcceptableOneByOne(before: seq<PushMessage>, m: PushMessage, rest: seq<PushMessage>,
                           peer: NodeId, own: NodeId, nowMs: int)
    ensures Acceptable([], peer, own, nowMs) == []
    ensures Acceptable(before + [m] + rest, peer, own, nowMs)
         == Acceptable(before, peer, own, nowMs)
            + (if m.sender == peer && m.recipient == own && nowMs < m.expiresMs then [m] else [])
            + Acceptable(rest, peer, own, nowMs)
  {
    var keep := (m: PushMessage) => m.sender == peer && m.recipient == own && nowMs < m.expiresMs;
    FilterConcat(before, [m], keep);
    FilterConcat(before + [m], rest, keep);
    if keep(m) {
      FilterAll([m], keep);
    } else {
      FilterNone([m], keep);
    }
  }

  // ---------------------------------------------------------------------------
  // Age
  // ---------------------------------------------------------------------------

  function Stamp(folder: Folder, id: PushId): (int, PushId) {
    (if id in folder then folder[id].atMs else 0, id)
  }

  predicate Older(a: (int, PushId), b: (int, PushId)) {
    a.0 < b.0 || (a.0 == b.0 && a.1 < b.1)
  }

  /** Older by time, then by id. */
  function ByAge(folder: Folder): (PushId, PushId) -> bool {
    (a: PushId, b: PushId) => Older(Stamp(folder, a), Stamp(folder, b))
  }

  /** A folder's ids, oldest first. */
  function InOrder(folder: Folder): seq<PushId> {
    assert StrictOrder(ByAge(folder));
    Sorted(folder.Keys, ByAge(folder))
  }

  lemma InOrderCorrect(folder: Folder)
    ensures |InOrder(folder)| == |folder|
    ensures Ascending(InOrder(folder), ByAge(folder))
    ensures forall id :: id in InOrder(folder) <==> id in folder
  {
    assert StrictOrder(ByAge(folder));
    SortedCorrect(folder.Keys, ByAge(folder));
    assert |folder| == |folder.Keys|;
  }

  /** Which ids to drop so that the folder fits in `cap`: the oldest, as few as possible. */
  function Oldest(folder: Folder, cap: nat): seq<PushId> {
    InOrderCorrect(folder);
    if |folder| > cap then InOrder(folder)[..|folder| - cap] else []
  }

  lemma OldestAreOldest(folder: Folder, cap: nat)
    ensures var out := Oldest(folder, cap);
      && |out| == (if |folder| > cap then |folder| - cap else 0) && Distinct(out)
      && (forall id :: id in out ==> id in folder)
      && (forall a, b :: a in out && b in folder && b !in out ==> Older(Stamp(folder, a), Stamp(folder, b)))
  {
    InOrderCorrect(folder);
    var all, out := InOrder(folder), Oldest(folder, cap);
    forall i, j | 0 <= i < j < |out| ensures out[i] != out[j] {
      assert ByAge(folder)(all[i], all[j]);
    }
    assert forall k :: 0 <= k < |out| ==> out[k] == all[k] && all[k] in out;
    forall a, b | a in out && b in folder && b !in out ensures Older(Stamp(folder, a), Stamp(folder, b)) {
      var i :| 0 <= i < |out| && out[i] == a;
      var j :| 0 <= j < |all| && all[j] == b;
      assert ByAge(folder)(all[i], all[j]);
    }
  }

  // ---------------------------------------------------------------------------
  // One file at a time
  // ---------------------------------------------------------------------------

  datatype Event =
    | Stored(id: PushId)
    | Evicted(id: PushId)
    | Returned(id: PushId)
    | Trimmed(id: PushId)

  /** The two folders, and everything that happened to each id. */
  datatype Box = Box(unread: Folder, read: Folder, log: seq<Event>) {
    predicate Holds(id: PushId) {
      id in unread || id in read
    }

    function StoreOne(m: PushMessage): Box {
      if Holds(m.id) then this else Box(unread[m.id := m], read, log + [Stored(m.id)])
    }

    /** Marks `id` read, because it was evicted or because it was returned. */
    function MoveOne(id: PushId, evicting: bool): Box {
      if id !in unread then this
      else Box(unread - {id}, read[id := unread[id]], log + [if evicting then Evicted(id) else Returned(id)])
    }

    function TrimOne(id: PushId): Box {
      if id !in read then this else Box(unread, read - {id}, log + [Trimmed(id)])
    }

    function StoreEach(messages: seq<PushMessage>): Box
      decreases |messages|
    {
      if messages == [] then this
      else StoreEach(messages[..|messages| - 1]).StoreOne(messages[|messages| - 1])
    }

    function MoveEach(ids: seq<PushId>, evicting: bool): Box
      decreases |ids|
    {
      if ids == [] then this else MoveEach(ids[..|ids| - 1], evicting).MoveOne(ids[|ids| - 1], evicting)
    }

    function TrimEach(ids: seq<PushId>): Box
      decreases |ids|
    {
      if ids == [] then this else TrimEach(ids[..|ids| - 1]).TrimOne(ids[|ids| - 1])
    }

    /** Store a batch; when any of it was new, evict the oldest unread past the cap. */
    function Store(messages: seq<PushMessage>): Box {
      var stored := StoreEach(messages);
      if |stored.unread| > |unread| then stored.MoveEach(Oldest(stored.unread, MAX_UNREAD), true) else stored
    }

    /** Return every unread message, oldest first, then forget the oldest read past the cap. */
    function Take(): Box {
      var taken := MoveEach(InOrder(unread), false);
      taken.TrimEach(Oldest(taken.read, MAX_READ))
    }
  }

  const EMPTY := Box(map[], map[], [])

  // ---------------------------------------------------------------------------
  // The mailbox itself
  // ---------------------------------------------------------------------------

  function Ids(messages: seq<PushMessage>): (r: seq<PushId>)
    ensures |r| == |messages| && forall i :: 0 <= i < |r| ==> r[i] == messages[i].id
  {
    seq(|messages|, i requires 0 <= i < |messages| => messages[i].id)
  }

  class Mailbox {
    var unread: Folder
    var read: Folder
    ghost var log: seq<Event>

    ghost function Value(): Box
      reads this
    {
      Box(unread, read, log)
    }

    constructor ()
      ensures Value() == EMPTY
    {
      unread, read, log := map[], map[], [];
    }

    /** Marks one message read, by renaming its file; a file another reader took is skipped. */
    method MoveToRead(id: PushId, evicting: bool) returns (moved: bool)
      modifies this
      ensures moved == (id in old(unread))
      ensures Value() == old(Value()).MoveOne(id, evicting)
    {
      if id !in unread {
        return false;
      }
      read := read[id := unread[id]];
      unread := unread - {id};
      log := log + [if evicting then Evicted(id) else Returned(id)];
      return true;
    }

    method StoreAll(messages: seq<PushMessage>) returns (ids: seq<PushId>, added: nat)
      modifies this
      ensures Value() == old(Value()).StoreEach(messages)
      ensures ids == Ids(messages) && added == |unread| - |old(unread)|
    {
      ghost var before := Value();
      ids, added := [], 0;
      for i := 0 to |messages|
        invariant ids == Ids(messages[..i])
        invariant Value() == before.StoreEach(messages[..i])
        invariant added == |unread| - |before.unread|
      {
        assert messages[..i + 1][..i] == messages[..i];
        var m := messages[i];
        ids := ids + [m.id];
        if m.id !in unread && m.id !in read {
          unread := unread[m.id := m];
          log := log + [Stored(m.id)];
          added := added + 1;
        }
      }
      assert messages[..|messages|] == messages;
    }

    method Store(messages: seq<PushMessage>) returns (ids: seq<PushId>, added: nat, evicted: nat)
      modifies this
      ensures Value() == old(Value()).Store(messages)
      ensures ids == Ids(messages)
      ensures added == |old(Value()).StoreEach(messages).unread| - |old(unread)|
      ensures evicted == if added > 0 then |Oldest(old(Value()).StoreEach(messages).unread, MAX_UNREAD)| else 0
    {
      evicted := 0;
      ids, added := StoreAll(messages);
      if added > 0 {
        OldestAreOldest(unread, MAX_UNREAD);
        evicted := EvictAll(Oldest(unread, MAX_UNREAD));
      }
    }

    method EvictAll(ids: seq<PushId>) returns (evicted: nat)
      requires Distinct(ids) && forall id :: id in ids ==> id in unread
      modifies this
      ensures Value() == old(Value()).MoveEach(ids, true)
      ensures evicted == |ids|
    {
      ghost var before := Value();
      evicted := 0;
      for i := 0 to |ids|
        invariant Value() == before.MoveEach(ids[..i], true)
        invariant evicted == i
        invariant forall j :: i <= j < |ids| ==> ids[j] in unread
      {
        assert ids[..i + 1][..i] == ids[..i];
        var moved := MoveToRead(ids[i], true);
        if moved {
          evicted := evicted + 1;
        }
      }
      assert ids[..|ids|] == ids;
    }

    method ReturnAll(ids: seq<PushId>) returns (taken: seq<PushMessage>)
      requires Distinct(ids) && forall id :: id in ids ==> id in unread
      modifies this
      ensures Value() == old(Value()).MoveEach(ids, false)
      ensures |taken| == |ids| && forall i :: 0 <= i < |ids| ==> taken[i] == old(unread)[ids[i]]
    {
      ghost var before := Value();
      taken := [];
      for i := 0 to |ids|
        invariant Value() == before.MoveEach(ids[..i], false)
        invariant |taken| == i && forall j :: 0 <= j < i ==> taken[j] == before.unread[ids[j]]
        invariant forall j :: i <= j < |ids| ==> ids[j] in unread && unread[ids[j]] == before.unread[ids[j]]
      {
        assert ids[..i + 1][..i] == ids[..i];
        var m := unread[ids[i]];
        var moved := MoveToRead(ids[i], false);
        if moved {
          taken := taken + [m];
        }
      }
      assert ids[..|ids|] == ids;
    }

    method TakeUnread() returns (taken: seq<PushMessage>)
      modifies this
      ensures Value() == old(Value()).Take()
      ensures taken == Listed(old(unread))
    {
      InOrderCorrect(unread);
      InOrderDistinct(unread);
      taken := ReturnAll(InOrder(unread));
      Trim(Oldest(read, MAX_READ));
    }

    method Trim(ids: seq<PushId>)
      modifies this
      ensures Value() == old(Value()).TrimEach(ids)
    {
      ghost var before := Value();
      for i := 0 to |ids|
        invariant Value() == before.TrimEach(ids[..i])
      {
        assert ids[..i + 1][..i] == ids[..i];
        if ids[i] in read {
          read := read - {ids[i]};
          log := log + [Trimmed(ids[i])];
        }
      }
      assert ids[..|ids|] == ids;
    }
  }

  /** A folder's messages, oldest first. */
  function Listed(folder: Folder): seq<PushMessage> {
    InOrderCorrect(folder);
    var ids := InOrder(folder);
    seq(|ids|, i requires 0 <= i < |ids| => folder[ids[i]])
  }

  lemma IsListed(folder: Folder, id: PushId)
    requires id in folder
    ensures folder[id] in Listed(folder)
  {
    InOrderCorrect(folder);
    var ids, listed := InOrder(folder), Listed(folder);
    var i :| 0 <= i < |ids| && ids[i] == id;
    assert listed[i] == folder[id];
  }

  lemma ListedComesFrom(folder: Folder, m: PushMessage) returns (id: PushId)
    requires m in Listed(folder)
    ensures id in folder && folder[id] == m
  {
    InOrderCorrect(folder);
    var listed := Listed(folder);
    var i :| 0 <= i < |listed| && listed[i] == m;
    id := InOrder(folder)[i];
  }

  /** What a reading returns: every message of the folder, each once, each older than the next. */
  lemma ListedIs(folder: Folder)
    ensures |Listed(folder)| == |folder| == |InOrder(folder)|
    ensures forall m :: m in Listed(folder) <==> exists id :: id in folder && folder[id] == m
    ensures forall i, j :: 0 <= i < j < |Listed(folder)| ==>
      Older(Stamp(folder, InOrder(folder)[i]), Stamp(folder, InOrder(folder)[j]))
  {
    InOrderCorrect(folder);
    var ids := InOrder(folder);
    forall m ensures m in Listed(folder) <==> exists id :: id in folder && folder[id] == m {
      if m in Listed(folder) {
        var _ := ListedComesFrom(folder, m);
      }
      if id :| id in folder && folder[id] == m {
        IsListed(folder, id);
      }
    }
    forall i, j | 0 <= i < j < |ids| ensures Older(Stamp(folder, ids[i]), Stamp(folder, ids[j])) {
      assert ByAge(folder)(ids[i], ids[j]);
    }
  }

  lemma InOrderDistinct(folder: Folder)
    ensures Distinct(InOrder(folder))
  {
    InOrderCorrect(folder);
    var ids := InOrder(folder);
    forall i, j | 0 <= i < j < |ids| ensures ids[i] != ids[j] {
      assert ByAge(folder)(ids[i], ids[j]);
    }
  }

  // ---------------------------------------------------------------------------
  // The life of one id
  // ---------------------------------------------------------------------------

  datatype Place = Nowhere | Unread | Read

  /** What an event does to the id it names; `None` where it cannot happen. */
  function MoveBy(place: Place, e: Event): Option<Place> {
    match (place, e)
    case (Nowhere, Stored(_)) => Some(Unread)
    case (Unread, Evicted(_)) => Some(Read)
    case (Unread, Returned(_)) => Some(Read)
    case (Read, Trimmed(_)) => Some(Nowhere)
    case _ => None
  }

  /** Where `id` is after `log`; `None` if the log says something that cannot happen to it. */
  function PlaceAfter(log: seq<Event>, id: PushId): Option<Place> {
    if log == [] then Some(Nowhere)
    else
      var before, e := PlaceAfter(log[..|log| - 1], id), log[|log| - 1];
      if e.id != id then before
      else if before.None? then None
      else MoveBy(before.value, e)
  }

  function PlaceIn(box: Box, id: PushId): Place {
    if id in box.unread then Unread else if id in box.read then Read else Nowhere
  }

  /** No id is both unread and read, files are named by their message, and the log accounts for every id. */
  ghost predicate Consistent(box: Box) {
    && box.unread.Keys !! box.read.Keys
    && (forall id :: id in box.unread ==> box.unread[id].id == id)
    && (forall id :: id in box.read ==> box.read[id].id == id)
    && (forall id :: PlaceAfter(box.log, id) == Some(PlaceIn(box, id)))
  }

  lemma StoreOneConsistent(box: Box, m: PushMessage)
    requires Consistent(box)
    ensures Consistent(box.StoreOne(m))
  {
  }

  lemma MoveOneConsistent(box: Box, id: PushId, evicting: bool)
    requires Consistent(box)
    ensures Consistent(box.MoveOne(id, evicting))
  {
  }

  lemma TrimOneConsistent(box: Box, id: PushId)
    requires Consistent(box)
    ensures Consistent(box.TrimOne(id))
  {
  }
}
