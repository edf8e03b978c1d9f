/** What runs of admin commands keep beyond validity, and where interleaving breaks it. */
module AdminLaws {
  import opened Prelude
  import opened Terms
  import opened Policies
  import opened Edits
  import opened Histories
  import opened Admin
  import opened AdminRuns

  // ---------------------------------------------------------------------------
  // One command after another
  // ---------------------------------------------------------------------------

  datatype Command = Command(edit: Edit, now: int, ttl: nat)

  /** What commands run one after another leave stored, and the commits they made. */
  function Sequential(root: NodeId, own: NodeId, commands: seq<Command>): (Option<SignedPolicy>, seq<Commit>) {
    if commands == [] then (None, [])
    else
      var c := commands[|commands| - 1];
      var (stored, history) := Sequential(root, own, commands[..|commands| - 1]);
      var (after, r) := Ran(root, own, stored, c.edit, c.now, c.ttl);
      if r.Err? then (after, history)
      else (after, history + [Commit(c.edit, MustKeepDirectory(root, stored, c.edit).value, c.now, c.ttl, r.value)])
  }

  /** Whether commit `i`'s checks were made on the very policy it was computed from. */
  predicate Timely(root: NodeId, own: NodeId, history: seq<Commit>, i: nat)
    requires i < |history|
  {
    var (stored, edit) := (StoredAt(history, i), history[i].edit);
    Precheck(root, own, stored, edit).Ok? && MustKeepDirectory(root, stored, edit) == Ok(history[i].mustKeep)
  }

  ghost predicate AllTimely(root: NodeId, own: NodeId, history: seq<Commit>) {
    forall i :: 0 <= i < |history| ==> Timely(root, own, history, i)
  }

  lemma CommittedIs(
    root: NodeId, stored: Option<SignedPolicy>, edit: Edit, mustKeep: bool, now: int, ttl: nat)
    ensures var (after, r) := Committed(root, stored, stored, edit, mustKeep, now, ttl);
      && (r.Err? ==> after == stored)
      && (r.Ok? ==> after == Some(r.value) && NextSigned(root, stored, edit, mustKeep, now, ttl) == Ok(r.value))
  {
  }

  /** A refused command stores nothing; a successful one stores what it signed. */
  lemma RanIs(root: NodeId, own: NodeId, stored: Option<SignedPolicy>, edit: Edit, now: int, ttl: nat)
    ensures var (after, r) := Ran(root, own, stored, edit, now, ttl);
      && (r.Err? ==> after == stored)
      && (r.Ok? ==> after == Some(r.value) && Precheck(root, own, stored, edit).Ok?
                    && MustKeepDirectory(root, stored, edit).Ok?
                    && NextSigned(root, stored, edit, MustKeepDirectory(root, stored, edit).value, now, ttl)
                       == Ok(r.value))
  {
    var precheck, guard := Precheck(root, own, stored, edit), MustKeepDirectory(root, stored, edit);
    if precheck.Ok? && guard.Ok? {
      CommittedIs(root, stored, edit, guard.value, now, ttl);
    }
  }

  lemma TimelyGrows(root: NodeId, own: NodeId, history: seq<Commit>, c: Commit)
    requires AllTimely(root, own, history)
    requires var stored := StoredAt(history, |history|);
      Precheck(root, own, stored, c.edit).Ok? && MustKeepDirectory(root, stored, c.edit) == Ok(c.mustKeep)
    ensures AllTimely(root, own, history + [c])
  {
    var more := history + [c];
    forall i | 0 <= i < |more| ensures Timely(root, own, more, i) {
      assert StoredAt(more, i) == StoredAt(history, i);
      assert i < |history| ==> Timely(root, own, history, i);
    }
  }

  /** Commands run one after another commit one chain, each on checks made against its own base. */
  lemma {:induction false} SequentialIsTimely(root: NodeId, own: NodeId, commands: seq<Command>)
    ensures var (stored, history) := Sequential(root, own, commands);
      && stored == StoredAt(history, |history|) && |history| <= |commands|
      && OneChain(root, history) && AllTimely(root, own, history)
  {
    if commands != [] {
      var c := commands[|commands| - 1];
      SequentialIsTimely(root, own, commands[..|commands| - 1]);
      var (stored, history) := Sequential(root, own, commands[..|commands| - 1]);
      RanIs(root, own, stored, c.edit, c.now, c.ttl);
      var (after, r) := Ran(root, own, stored, c.edit, c.now, c.ttl);
      if r.Ok? {
        var commit := Commit(c.edit, MustKeepDirectory(root, stored, c.edit).value, c.now, c.ttl, r.value);
        ChainGrows(Signs(root), history, commit);
        TimelyGrows(root, own, history, commit);
      }
    }
  }

  // ---------------------------------------------------------------------------
  // Person bans name trusted issuers; a directory stays
  // ---------------------------------------------------------------------------

  /** No ban names an issuer the network no longer trusts: validation does not ask for this. */
  predicate BansNameTrusted(p: Policy) {
    forall b :: b in p.personBans ==> b.issuer in p.issuers
  }

  /** Exactly which edits break it: a ban under an issuer the policy being changed does not trust. */
  lemma EditKeepsTrustedIff(edit: Edit, p: Policy)
    requires Changed(edit, p).Ok? && BansNameTrusted(p)
    ensures BansNameTrusted(Changed(edit, p).value) <==> (edit.BanPerson? ==> edit.person.issuer in p.issuers)
  {
  }

  /** However commands interleave, a commit keeps the rule exactly when it bans under a then trusted issuer. */
  lemma CommitKeepsTrustedIff(root: NodeId, history: seq<Commit>, i: nat)
    requires OneChain(root, history) && i < |history|
    requires BansNameTrusted(PolicyAt(root, history, i))
    ensures BansNameTrusted(PolicyAt(root, history, i + 1))
            <==> (history[i].edit.BanPerson? ==> history[i].edit.person.issuer in PolicyAt(root, history, i).issuers)
  {
    CommitChanges(root, history, i);
    EditKeepsTrustedIff(history[i].edit, PolicyAt(root, history, i));
  }

  lemma BanWasChecked(root: NodeId, own: NodeId, history: seq<Commit>, i: nat)
    requires OneChain(root, history) && i < |history| && Timely(root, own, history, i)
    requires history[i].edit.BanPerson?
    ensures history[i].edit.person.issuer in PolicyAt(root, history, i).issuers
  {
    HistoryIsSound(root, history, i);
  }

  lemma BansStayTrusted(root: NodeId, own: NodeId, history: seq<Commit>, i: nat)
    requires OneChain(root, history) && i < |history| && Timely(root, own, history, i)
    requires BansNameTrusted(PolicyAt(root, history, i))
    ensures BansNameTrusted(PolicyAt(root, history, i + 1))
  {
    if history[i].edit.BanPerson? {
      BanWasChecked(root, own, history, i);
    }
    CommitKeepsTrustedIff(root, history, i);
  }

  /** With no interleaving every person ban always names a trusted issuer. */
  lemma {:induction false} BansAlwaysNameTrusted(root: NodeId, own: NodeId, history: seq<Commit>, i: nat)
    requires OneChain(root, history) && AllTimely(root, own, history) && i <= |history|
    ensures BansNameTrusted(PolicyAt(root, history, i))
  {
    if i > 0 {
      BansAlwaysNameTrusted(root, own, history, i - 1);
      assert Timely(root, own, history, i - 1);
      BansStayTrusted(root, own, history, i - 1);
    }
  }

  /**
    However commands interleave, exactly which commits over a policy that lists a directory leave none: one
    whose guard saw none listed, and that drops or bans the one node that is listed.
   */
  lemma CommitKeepsDirectoryIff(root: NodeId, history: seq<Commit>, i: nat)
    requires OneChain(root, history) && i < |history|
    requires PolicyAt(root, history, i).directories != []
    ensures PolicyAt(root, history, i + 1).directories == [] <==>
      && !history[i].mustKeep
      && (history[i].edit.RemoveDirectory? || history[i].edit.BanNode?)
      && PolicyAt(root, history, i).directories == [history[i].edit.node]
  {
    if history[i].mustKeep {
      KeepsADirectory(root, history, i);
    }
    ListedOnce(root, history, i);
    CommitChanges(root, history, i);
    DropsLastIff(history[i].edit, PolicyAt(root, history, i));
  }

  lemma ListedOnce(root: NodeId, history: seq<Commit>, i: nat)
    requires OneChain(root, history) && i <= |history|
    ensures Distinct(PolicyAt(root, history, i).directories)
  {
    if i > 0 {
      HistoryIsValid(root, history, i);
    }
  }

  lemma KeepsADirectory(root: NodeId, history: seq<Commit>, i: nat)
    requires OneChain(root, history) && i < |history| && history[i].mustKeep
    ensures PolicyAt(root, history, i + 1).directories != []
  {
    CommitIs(root, history, i);
  }

  /** An edit empties a directory list exactly by dropping or banning its one node. */
  lemma DropsLastIff(edit: Edit, p: Policy)
    requires Changed(edit, p).Ok? && p.directories != [] && Distinct(p.directories)
    ensures Changed(edit, p).value.directories == [] <==>
      (edit.RemoveDirectory? || edit.BanNode?) && p.directories == [edit.node]
  {
    if (edit.RemoveDirectory? || edit.BanNode?) && p.directories != [edit.node] {
      var d := if p.directories[0] == edit.node then p.directories[1] else p.directories[0];
      assert d in Retain(p.directories, edit.node);
    }
  }

  lemma DirectoryWasListed(root: NodeId, own: NodeId, history: seq<Commit>, i: nat)
    requires OneChain(root, history) && i < |history| && Timely(root, own, history, i)
    requires PolicyAt(root, history, i).directories != []
    ensures history[i].mustKeep || history[i].edit.Init?
  {
  }

  lemma DirectoryStaysOnce(root: NodeId, own: NodeId, history: seq<Commit>, i: nat)
    requires OneChain(root, history) && i < |history| && Timely(root, own, history, i)
    requires PolicyAt(root, history, i).directories != []
    ensures PolicyAt(root, history, i + 1).directories != []
  {
    DirectoryWasListed(root, own, history, i);
    CommitKeepsDirectoryIff(root, history, i);
  }

  /** With no interleaving a directory list that is not empty never becomes empty. */
  lemma {:induction false} DirectoriesStay(root: NodeId, own: NodeId, history: seq<Commit>, i: nat, j: nat)
    requires OneChain(root, history) && AllTimely(root, own, history) && i <= j <= |history|
    requires PolicyAt(root, history, i).directories != []
    ensures PolicyAt(root, history, j).directories != []
  {
    if i < j {
      DirectoriesStay(root, own, history, i, j - 1);
      assert Timely(root, own, history, j - 1);
      DirectoryStaysOnce(root, own, history, j - 1);
    }
  }

  /**
    Every run of commands, one after another, from an empty keystore: after `j` of its commits the policy
    is valid, its version is `j`, every ban names a trusted issuer, and since any earlier point `i` the
    lifetime has not shrunk and a directory list has not emptied.
   */
  lemma SequentialRunKeeps(root: NodeId, own: NodeId, commands: seq<Command>, i: nat, j: nat)
    requires i <= j <= |Sequential(root, own, commands).1|
    ensures var (stored, history) := Sequential(root, own, commands);
      && stored == StoredAt(history, |history|) && OneChain(root, history)
      && (var (p, q) := (PolicyAt(root, history, i), PolicyAt(root, history, j));
          && q.version == j && (j > 0 ==> ValidPolicy(q)) && BansNameTrusted(q)
          && (i > 0 ==> p.notAfter <= q.notAfter)
          && (p.directories != [] ==> q.directories != []))
  {
    var (stored, history) := Sequential(root, own, commands);
    SequentialIsTimely(root, own, commands);
    BansAlwaysNameTrusted(root, own, history, j);
    if j > 0 {
      HistoryIsValid(root, history, j);
    }
    if i > 0 {
      LifetimeNeverShortens(root, history, i, j);
    }
    if PolicyAt(root, history, i).directories != [] {
      DirectoriesStay(root, own, history, i, j);
    }
  }
}
