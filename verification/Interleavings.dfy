/** Runs in which interleaved commands break two rules that commands one after another keep. */
module Interleavings {
  import opened Prelude
  import opened Text
  import opened Terms
  import opened Policies
  import opened Edits
  import opened Admin
  import opened AdminRuns
  import opened AdminLaws
  import opened Commands

  // ---------------------------------------------------------------------------
  // One edit over another
  // ---------------------------------------------------------------------------

  lemma BanPrecheck(root: NodeId, own: NodeId, stored: Option<SignedPolicy>, person: Person)
    requires Sound(root, stored) && stored.Some? && person.issuer in Typed(root, stored).issuers
    ensures Precheck(root, own, stored, BanPerson(person)).Ok?
  {
  }

  lemma TypedIsValid(root: NodeId, stored: Option<SignedPolicy>)
    requires Sound(root, stored) && stored.Some?
    ensures ValidPolicy(Typed(root, stored))
  {
  }

  lemma AddedAlone(p: Policy, directory: NodeId)
    requires ValidPolicy(p) && p.directories == [] && directory !in p.bans
    ensures Changed(AddDirectory(directory), p) == Ok(p.(directories := [directory]))
    ensures ValidPolicy(p.(directories := [directory]))
  {
    assert p.directories + [directory] == [directory];
  }

  lemma RemovedAlone(p: Policy, directory: NodeId)
    requires ValidPolicy(p) && p.directories == [directory]
    ensures Changed(RemoveDirectory(directory), p) == Ok(p.(directories := []))
    ensures ValidPolicy(p.(directories := []))
  {
  }

  // ---------------------------------------------------------------------------
  // The two failures, from every policy they can start at
  // ---------------------------------------------------------------------------

  /** Whether `person` can be removed and, apart from that, their issuer dropped. */
  predicate CanBanOrDrop(p: Policy, person: Person) {
    && ValidPerson(person) && person !in p.personBans
    && person.issuer in p.issuers
    && Changed(RemoveIssuer(person.issuer), p).Ok?
    && ValidPolicy(Changed(RemoveIssuer(person.issuer), p).value)
  }

  /** A command whose checks pass stores what its edit makes, but for the stamps. */
  lemma RanMakes(
    root: NodeId, own: NodeId, stored: Option<SignedPolicy>, edit: Edit, changed: Policy, now: int, ttl: nat)
    requires Sound(root, stored) && stored.Some? && !edit.Init?
    requires Precheck(root, own, stored, edit).Ok?
    requires Changed(edit, Typed(root, stored)) == Ok(changed) && ValidPolicy(changed)
    requires MustKeep(root, stored) ==> changed.directories != []
    ensures var (after, r) := Ran(root, own, stored, edit, now, ttl);
      r.Ok? && after.Some? && Sound(root, after) && SameContent(changed, Typed(root, after))
  {
    MustKeepIs(root, stored, edit);
    RanCommits(root, own, stored, edit, MustKeep(root, stored), now, ttl);
    CommitOk(root, stored, edit, MustKeep(root, stored), now, ttl);
  }

  lemma IssuerDropped(
    root: NodeId, own: NodeId, before: Option<SignedPolicy>, issuer: Issuer, now: int, ttl: nat)
    requires Sound(root, before) && before.Some?
    requires var dropped := Changed(RemoveIssuer(issuer), Typed(root, before));
      dropped.Ok? && ValidPolicy(dropped.value)
    ensures var (p, (after, r)) := (Typed(root, before), Ran(root, own, before, RemoveIssuer(issuer), now, ttl));
      && r.Ok? && after.Some? && Sound(root, after)
      && SameContent(p.(issuers := p.issuers - {issuer}), Typed(root, after))
  {
    var p := Typed(root, before);
    RanMakes(root, own, before, RemoveIssuer(issuer), p.(issuers := p.issuers - {issuer}), now, ttl);
  }

  /** Banning someone whose issuer is not trusted is valid: validation does not ask. */
  lemma BannedAnyway(root: NodeId, between: Option<SignedPolicy>, person: Person, mustKeep: bool, now: int, ttl: nat)
    requires Sound(root, between) && between.Some? && ValidPerson(person)
    requires var p := Typed(root, between);
      ValidPolicy(p) && person !in p.personBans && (mustKeep ==> p.directories != [])
    ensures var (after, r) := Committed(root, between, between, BanPerson(person), mustKeep, now, ttl);
      && r.Ok? && Sound(root, after)
      && person in Typed(root, after).personBans && Typed(root, after).issuers == Typed(root, between).issuers
  {
    CommitOk(root, between, BanPerson(person), mustKeep, now, ttl);
  }

  /**
    Whenever an issuer can be dropped, a person ban under it that was checked before and swapped in after
    leaves a ban that names nobody, whatever directories the network has.
   */
  lemma StaleCheckBansUntrusted(
    root: NodeId, own: NodeId, before: Option<SignedPolicy>, person: Person,
    now: int, ttl: nat, later: int, laterTtl: nat)
    requires Sound(root, before) && before.Some? && CanBanOrDrop(Typed(root, before), person)
    ensures Precheck(root, own, before, BanPerson(person)).Ok?
    ensures MustKeepDirectory(root, before, BanPerson(person)) == Ok(MustKeep(root, before))
    ensures var (between, first) := Ran(root, own, before, RemoveIssuer(person.issuer), now, ttl);
      var (after, second) :=
        Committed(root, between, between, BanPerson(person), MustKeep(root, before), later, laterTtl);
      && first.Ok? && second.Ok? && Sound(root, after)
      && person in Typed(root, after).personBans && !BansNameTrusted(Typed(root, after))
  {
    var drop := RemoveIssuer(person.issuer);
    MustKeepIs(root, before, BanPerson(person));
    BanPrecheck(root, own, before, person);
    IssuerDropped(root, own, before, person.issuer, now, ttl);
    var between := Ran(root, own, before, drop, now, ttl).0;
    TypedIsValid(root, between);
    BannedAnyway(root, between, person, MustKeep(root, before), later, laterTtl);
  }

  lemma FirstListed(root: NodeId, own: NodeId, before: Option<SignedPolicy>, directory: NodeId, now: int, ttl: nat)
    requires Sound(root, before) && before.Some?
    requires Typed(root, before).directories == [] && directory !in Typed(root, before).bans
    ensures var (between, r) := Ran(root, own, before, AddDirectory(directory), now, ttl);
      && r.Ok? && between.Some? && Sound(root, between)
      && Typed(root, between).directories == [directory]
  {
    MustKeepIs(root, before, AddDirectory(directory));
    TypedIsValid(root, before);
    AddedAlone(Typed(root, before), directory);
    CommitOk(root, before, AddDirectory(directory), false, now, ttl);
    RanCommits(root, own, before, AddDirectory(directory), false, now, ttl);
  }

  lemma LastDropped(root: NodeId, between: Option<SignedPolicy>, directory: NodeId, now: int, ttl: nat)
    requires Sound(root, between) && between.Some? && Typed(root, between).directories == [directory]
    ensures var (after, r) := Committed(root, between, between, RemoveDirectory(directory), false, now, ttl);
      r.Ok? && Sound(root, after) && Typed(root, after).directories == []
  {
    TypedIsValid(root, between);
    RemovedAlone(Typed(root, between), directory);
    CommitOk(root, between, RemoveDirectory(directory), false, now, ttl);
  }

  /**
    An edit that found no directory listed, swapped in after another command listed the first one, can drop
    it again.
   */
  lemma StaleListDropsLastDirectory(
    root: NodeId, own: NodeId, before: Option<SignedPolicy>, directory: NodeId,
    now: int, ttl: nat, later: int, laterTtl: nat)
    requires Sound(root, before) && before.Some?
    requires Typed(root, before).directories == [] && directory !in Typed(root, before).bans
    ensures MustKeepDirectory(root, before, RemoveDirectory(directory)) == Ok(false)
    ensures var (between, first) := Ran(root, own, before, AddDirectory(directory), now, ttl);
      var (after, second) :=
        Committed(root, between, between, RemoveDirectory(directory), false, later, laterTtl);
      && first.Ok? && Sound(root, between) && Typed(root, between).directories == [directory]
      && second.Ok? && Sound(root, after) && Typed(root, after).directories == []
  {
    MustKeepIs(root, before, RemoveDirectory(directory));
    FirstListed(root, own, before, directory, now, ttl);
    LastDropped(root, Ran(root, own, before, AddDirectory(directory), now, ttl).0, directory, later, laterTtl);
  }

  // ---------------------------------------------------------------------------
  // As runs
  // ---------------------------------------------------------------------------

  function Last(worlds: seq<World>): World
    requires worlds != []
  {
    worlds[|worlds| - 1]
  }

  lemma Takes(root: NodeId, own: NodeId, worlds: seq<World>, step: Step) returns (more: seq<World>)
    requires Run(root, own, worlds) && Enabled(root, own, Last(worlds), step)
    ensures Run(root, own, more) && more == worlds + [After(root, own, Last(worlds), step)]
  {
    more := worlds + [After(root, own, Last(worlds), step)];
    forall i | 0 <= i < |more| - 1 ensures Next(root, own, more[i], more[i + 1]) {
      assert i < |worlds| - 1 ==> Next(root, own, worlds[i], worlds[i + 1]);
    }
  }

  /** A command makes its checks and reads the directory list. */
  lemma Starts(root: NodeId, own: NodeId, worlds: seq<World>, id: nat, edit: Edit) returns (more: seq<World>)
    requires Run(root, own, worlds) && id !in Last(worlds).running
    requires Precheck(root, own, Last(worlds).stored, edit).Ok?
    requires MustKeepDirectory(root, Last(worlds).stored, edit).Ok?
    ensures Run(root, own, more) && worlds <= more
    ensures Last(more).stored == Last(worlds).stored
    ensures Last(more).running
         == Last(worlds).running[id := Ready(edit, MustKeepDirectory(root, Last(worlds).stored, edit).value)]
  {
    more := Takes(root, own, worlds, Begin(id, edit));
    more := Takes(root, own, more, ReadDirectories(id));
  }

  /** A command that has made its checks signs over what is stored now, and swaps. */
  lemma Finishes(root: NodeId, own: NodeId, worlds: seq<World>, id: nat, now: int, ttl: nat)
    returns (more: seq<World>)
    requires Run(root, own, worlds) && id in Last(worlds).running && Last(worlds).running[id].Ready?
    requires var (w, ready) := (Last(worlds), Last(worlds).running[id]);
      Committed(root, w.stored, w.stored, ready.edit, ready.mustKeep, now, ttl).1.Ok?
    ensures Run(root, own, more) && worlds <= more
    ensures var (w, ready) := (Last(worlds), Last(worlds).running[id]);
      && Last(more).stored == Committed(root, w.stored, w.stored, ready.edit, ready.mustKeep, now, ttl).0
      && Last(more).running == w.running - {id}
  {
    more := Takes(root, own, worlds, SignCandidate(id, now, ttl));
    more := Takes(root, own, more, Swap(id));
    assert Last(more).running == Last(worlds).running - {id};
  }

  /** A whole command with nothing in between. */
  lemma RunsAlone(root: NodeId, own: NodeId, worlds: seq<World>, id: nat, edit: Edit, now: int, ttl: nat)
    returns (more: seq<World>)
    requires Run(root, own, worlds) && id !in Last(worlds).running
    requires Ran(root, own, Last(worlds).stored, edit, now, ttl).1.Ok?
    ensures Run(root, own, more) && worlds <= more
    ensures Last(more).stored == Ran(root, own, Last(worlds).stored, edit, now, ttl).0
    ensures Last(more).running == Last(worlds).running
  {
    RanIs(root, own, Last(worlds).stored, edit, now, ttl);
    more := Starts(root, own, worlds, id, edit);
    more := Finishes(root, own, more, id, now, ttl);
    assert Last(more).running == Last(worlds).running;
  }

  /**
    From every state a run can reach in which an issuer can be dropped, the run can go on so that a ban
    under it names nobody.
   */
  lemma BanRuleCanBreak(
    root: NodeId, own: NodeId, worlds: seq<World>, slow: nat, quick: nat, person: Person,
    now: int, ttl: nat, later: int, laterTtl: nat)
    returns (more: seq<World>)
    requires Run(root, own, worlds) && slow != quick && {slow, quick} !! Last(worlds).running.Keys
    requires var before := Last(worlds).stored;
      Sound(root, before) && before.Some? && CanBanOrDrop(Typed(root, before), person)
    ensures Run(root, own, more) && worlds <= more && Sound(root, Last(more).stored)
    ensures person in Typed(root, Last(more).stored).personBans && !BansNameTrusted(Typed(root, Last(more).stored))
  {
    StaleCheckBansUntrusted(root, own, Last(worlds).stored, person, now, ttl, later, laterTtl);
    more := Starts(root, own, worlds, slow, BanPerson(person));
    more := RunsAlone(root, own, more, quick, RemoveIssuer(person.issuer), now, ttl);
    more := Finishes(root, own, more, slow, later, laterTtl);
  }

  /**
    From every state a run can reach in which no directory is listed, the run can go on so that one is listed
    and then none.
   */
  lemma DirectoryRuleCanBreak(
    root: NodeId, own: NodeId, worlds: seq<World>, slow: nat, quick: nat, directory: NodeId,
    now: int, ttl: nat, later: int, laterTtl: nat)
    returns (more: seq<World>, listed: nat)
    requires Run(root, own, worlds) && slow != quick && {slow, quick} !! Last(worlds).running.Keys
    requires var before := Last(worlds).stored;
      && Sound(root, before) && before.Some?
      && Typed(root, before).directories == [] && directory !in Typed(root, before).bans
    ensures Run(root, own, more) && worlds <= more && listed < |more|
    ensures Sound(root, more[listed].stored) && Typed(root, more[listed].stored).directories == [directory]
    ensures Sound(root, Last(more).stored) && Typed(root, Last(more).stored).directories == []
  {
    more := GuardMisses(root, own, worlds, slow, quick, directory, now, ttl);
    listed := |more| - 1;
    more := DropGoesThrough(root, own, more, slow, directory, later, laterTtl);
  }

  lemma GuardMisses(
    root: NodeId, own: NodeId, worlds: seq<World>, slow: nat, quick: nat, directory: NodeId, now: int, ttl: nat)
    returns (more: seq<World>)
    requires Run(root, own, worlds) && slow != quick && {slow, quick} !! Last(worlds).running.Keys
    requires var before := Last(worlds).stored;
      && Sound(root, before) && before.Some?
      && Typed(root, before).directories == [] && directory !in Typed(root, before).bans
    ensures Run(root, own, more) && worlds <= more
    ensures Last(more).running == Last(worlds).running[slow := Ready(RemoveDirectory(directory), false)]
    ensures var between := Last(more).stored;
      between.Some? && Sound(root, between) && Typed(root, between).directories == [directory]
  {
    MustKeepIs(root, Last(worlds).stored, RemoveDirectory(directory));
    more := Starts(root, own, worlds, slow, RemoveDirectory(directory));
    FirstListed(root, own, Last(worlds).stored, directory, now, ttl);
    more := RunsAlone(root, own, more, quick, AddDirectory(directory), now, ttl);
  }

  lemma DropGoesThrough(
    root: NodeId, own: NodeId, worlds: seq<World>, slow: nat, directory: NodeId, now: int, ttl: nat)
    returns (more: seq<World>)
    requires Run(root, own, worlds) && slow in Last(worlds).running
    requires Last(worlds).running[slow] == Ready(RemoveDirectory(directory), false)
    requires var between := Last(worlds).stored;
      between.Some? && Sound(root, between) && Typed(root, between).directories == [directory]
    ensures Run(root, own, more) && worlds <= more
    ensures Sound(root, Last(more).stored) && Typed(root, Last(more).stored).directories == []
  {
    LastDropped(root, Last(worlds).stored, directory, now, ttl);
    more := Finishes(root, own, worlds, slow, now, ttl);
  }

  /** The run of `init` alone, from an empty keystore. */
  lemma InitRuns(root: NodeId, own: NodeId, issuer: Issuer, config: IssuerConfig, now: int, ttl: nat)
    returns (worlds: seq<World>)
    requires ValidIssuer(issuer, config)
    ensures Run(root, own, worlds) && Last(worlds).running == map[]
    ensures Last(worlds).stored.Some? && Sound(root, Last(worlds).stored)
    ensures var p := Typed(root, Last(worlds).stored);
      p == EmptyPolicy(root).(issuers := map[issuer := config], version := 1, issued := now, notAfter := p.notAfter)
  {
    CommitOk(root, None, Init(issuer, config), false, now, ttl);
    worlds := [World(None, map[], [])];
    worlds := RunsAlone(root, own, worlds, 0, Init(issuer, config), now, ttl);
  }

  lemma InitAllowsBoth(root: NodeId, own: NodeId, config: IssuerConfig, person: Person, now: int, ttl: nat)
    returns (worlds: seq<World>)
    requires ValidPerson(person) && ValidIssuer(person.issuer, config)
    ensures Run(root, own, worlds) && Last(worlds).running == map[]
    ensures Last(worlds).stored.Some? && Sound(root, Last(worlds).stored)
    ensures BansNameTrusted(Typed(root, Last(worlds).stored))
    ensures CanBanOrDrop(Typed(root, Last(worlds).stored), person)
  {
    worlds := InitRuns(root, own, person.issuer, config, now, ttl);
    DropsOnlyIssuer(root, Typed(root, Last(worlds).stored), config, person);
  }

  /** So after `init` alone a run breaks the ban rule, which held of the policy `init` stored. */
  lemma RunBansUntrusted(root: NodeId, own: NodeId, config: IssuerConfig, person: Person)
    returns (worlds: seq<World>, good: nat)
    requires ValidPerson(person) && ValidIssuer(person.issuer, config)
    ensures Run(root, own, worlds) && good < |worlds|
    ensures Sound(root, worlds[good].stored) && BansNameTrusted(Typed(root, worlds[good].stored))
    ensures Sound(root, Last(worlds).stored) && !BansNameTrusted(Typed(root, Last(worlds).stored))
  {
    var start := InitAllowsBoth(root, own, config, person, 0, 1);
    good := |start| - 1;
    worlds := BanRuleCanBreak(root, own, start, 0, 1, person, 1, 1, 2, 1);
    assert worlds[good] == start[good];
  }

  lemma DropsOnlyIssuer(root: NodeId, p: Policy, config: IssuerConfig, person: Person)
    requires ValidPerson(person)
    requires p == EmptyPolicy(root).(issuers := map[person.issuer := config], version := p.version,
                                     issued := p.issued, notAfter := p.notAfter)
    ensures BansNameTrusted(p) && CanBanOrDrop(p, person)
  {
  }

  /** And one lists a directory and then drops the last. */
  lemma RunDropsLastDirectory(root: NodeId, own: NodeId, issuer: Issuer, config: IssuerConfig, directory: NodeId)
    returns (worlds: seq<World>, listed: nat)
    requires ValidIssuer(issuer, config)
    ensures Run(root, own, worlds) && listed < |worlds|
    ensures Sound(root, worlds[listed].stored) && Typed(root, worlds[listed].stored).directories == [directory]
    ensures Sound(root, Last(worlds).stored) && Typed(root, Last(worlds).stored).directories == []
  {
    var start := InitRuns(root, own, issuer, config, 0, 1);
    worlds, listed := DirectoryRuleCanBreak(root, own, start, 0, 1, directory, 1, 1, 2, 1);
  }

  /** An issuer and a person such as these runs can start from. */
  lemma SampleIsValid()
    ensures ValidIssuer("idp", IssuerConfig("app", ["app"])) && ValidPerson(Person("idp", "e"))
  {
    assert "app" in IssuerConfig("app", ["app"]).audiences;
    assert Lower("e") == "e";
  }

  /** Both rules do break in some run. */
  lemma BothRulesBreak(root: NodeId, own: NodeId, directory: NodeId)
    returns (bans: seq<World>, good: nat, lists: seq<World>, listed: nat)
    ensures Run(root, own, bans) && good < |bans|
    ensures Sound(root, bans[good].stored) && BansNameTrusted(Typed(root, bans[good].stored))
    ensures Sound(root, Last(bans).stored) && !BansNameTrusted(Typed(root, Last(bans).stored))
    ensures Run(root, own, lists) && listed < |lists|
    ensures Sound(root, lists[listed].stored) && Typed(root, lists[listed].stored).directories == [directory]
    ensures Sound(root, Last(lists).stored) && Typed(root, Last(lists).stored).directories == []
  {
    SampleIsValid();
    bans, good := RunBansUntrusted(root, own, IssuerConfig("app", ["app"]), Person("idp", "e"));
    lists, listed := RunDropsLastDirectory(root, own, "idp", IssuerConfig("app", ["app"]), directory);
  }
}
