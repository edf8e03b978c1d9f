/** What each command needs, what it refuses, and what it does to the policy. */
module Commands {
  import opened Prelude
  import opened Terms
  import opened Policies
  import opened Roles
  import opened Gates
  import opened Edits
  import opened Histories
  import opened Admin
  import opened AdminRuns
  import opened AdminLaws
  import opened EditRuns

  // ---------------------------------------------------------------------------
  // When a command stores what its edit makes
  // ---------------------------------------------------------------------------

  lemma NextSignedOk(root: NodeId, base: Option<SignedPolicy>, edit: Edit, mustKeep: bool, now: int, ttl: nat)
    requires Sound(root, base) && Changed(edit, Typed(root, base)).Ok?
    requires ValidPolicy(Changed(edit, Typed(root, base)).value)
    requires mustKeep ==> Changed(edit, Typed(root, base)).value.directories != []
    ensures NextSigned(root, base, edit, mustKeep, now, ttl).Ok?
  {
    if base.Some? {
      TypedStamps(root, base.value);
    }
    ChangedKeepsStamps(edit, Typed(root, base));
    var held := ReadHeld(root, base).value;
    ValidSigns(NextPolicy(root, held, edit, mustKeep, now, ttl).value, root, base);
  }

  /** Over the stored policy itself the store takes the next one, unless it was signed already expired. */
  lemma AdoptsNext(root: NodeId, base: Option<SignedPolicy>, signed: SignedPolicy, now: int)
    requires Sound(root, base) && Sound(root, Some(signed))
    requires Typed(root, Some(signed)).version == Typed(root, base).version + 1
    requires Typed(root, Some(signed)).notAfter >= now
    ensures Adopts(root, base, signed, now) == Ok(true)
  {
    TypedStamps(root, signed);
    if base.Some? {
      TypedStamps(root, base.value);
    }
  }

  /** Over the stored policy itself, a valid change made in time is always stored. */
  lemma CommitOk(root: NodeId, base: Option<SignedPolicy>, edit: Edit, mustKeep: bool, now: int, ttl: nat)
    requires Sound(root, base) && Changed(edit, Typed(root, base)).Ok?
    requires ValidPolicy(Changed(edit, Typed(root, base)).value)
    requires mustKeep ==> Changed(edit, Typed(root, base)).value.directories != []
    ensures var (after, r) := Committed(root, base, base, edit, mustKeep, now, ttl);
      r.Ok? && after == Some(r.value) && Sound(root, after)
      && Typed(root, after) == Stamped(Changed(edit, Typed(root, base)).value, now, Typed(root, after).notAfter)
  {
    NextSignedOk(root, base, edit, mustKeep, now, ttl);
    NextSignedIs(root, base, edit, mustKeep, now, ttl);
    ChangedKeepsStamps(edit, Typed(root, base));
    AdoptsNext(root, base, NextSigned(root, base, edit, mustKeep, now, ttl).value, now);
  }

  /** A command whose checks pass goes on to sign and swap over the very policy it checked. */
  lemma RanCommits(
    root: NodeId, own: NodeId, stored: Option<SignedPolicy>, edit: Edit, mustKeep: bool, now: int, ttl: nat)
    requires Precheck(root, own, stored, edit).Ok? && MustKeepDirectory(root, stored, edit) == Ok(mustKeep)
    ensures Ran(root, own, stored, edit, now, ttl) == Committed(root, stored, stored, edit, mustKeep, now, ttl)
  {
  }

  predicate MustKeep(root: NodeId, stored: Option<SignedPolicy>)
    requires Sound(root, stored)
  {
    Typed(root, stored).directories != []
  }

  lemma MustKeepIs(root: NodeId, stored: Option<SignedPolicy>, edit: Edit)
    requires Sound(root, stored) && stored.Some? && !edit.Init?
    ensures MustKeepDirectory(root, stored, edit) == Ok(MustKeep(root, stored))
  {
  }

  // ---------------------------------------------------------------------------
  // Refusals
  // ---------------------------------------------------------------------------

  /** Which edits of which policies are refused, and with which of two faults at once. */
  lemma EditRefusedIff(edit: Edit, p: Policy)
    ensures Changed(edit, p).Err? <==>
      match edit
      case AddService(name, e) =>
        name in p.services || (e.hosts.Some? && exists h :: h in e.hosts.value && h in p.bans)
      case SetService(name, e) =>
        name !in p.services || (e.hosts.Some? && exists h :: h in e.hosts.value && h in p.bans)
      case RemoveService(name) => name !in p.services
      case RemoveRole(role) => role !in p.roles
      case RemoveIssuer(issuer) => issuer !in p.issuers || exists b :: b in p.personBans && b.issuer == issuer
      case AddDirectory(node) => node in p.bans || node in p.directories
      case RemoveDirectory(node) => node !in p.directories
      case BanPerson(person) => person in p.personBans
      case LiftPerson(person) => person !in p.personBans
      case BanNode(node) => node in p.bans
      case LiftNode(node) => node !in p.bans
      case _ => false
    ensures edit.AddService? && edit.name in p.services ==> Changed(edit, p) == Err(AlreadyThere)
    ensures edit.AddDirectory? && edit.node in p.bans ==> Changed(edit, p) == Err(WasRemoved(edit.node))
    ensures Changed(edit, p).Err? && Changed(edit, p).error.WasRemoved? ==> Changed(edit, p).error.node in p.bans
    ensures edit.SetService? && edit.edit.hosts.Some? && (exists h :: h in edit.edit.hosts.value && h in p.bans) ==>
      Changed(edit, p).error.WasRemoved?
  {
  }

  /** What a command must not be, whatever the policy: none of these is ever signed. */
  predicate NeverRuns(own: NodeId, edit: Edit) {
    || edit == BanNode(own)
    || (edit.SetRole? && edit.matchers == [])
    || (edit.ChangeSettings? && edit.beatSecs.None? && edit.freshSecs.None?)
  }

  lemma PrecheckIff(root: NodeId, own: NodeId, stored: Option<SignedPolicy>, edit: Edit)
    requires Sound(root, stored)
    ensures Precheck(root, own, stored, edit).Ok? <==>
      && edit != BanNode(own)
      && (edit.SetRole? ==> edit.matchers != [])
      && (edit.ChangeSettings? ==> edit.beatSecs.Some? || edit.freshSecs.Some?)
      && (edit.BanPerson? ==> edit.person.issuer in Typed(root, stored).issuers)
      && (edit.BanNode? || edit.LiftNode? || edit.BanPerson? || edit.LiftPerson? ==> stored.Some?)
  {
  }

  /**
    Exactly when a command succeeds: `init` apart, something is stored; the command is none that never runs,
    and a person to remove is of a trusted issuer; the edit itself is not refused; and the policy it makes is
    valid and, where a directory was listed, still lists one.
   */
  lemma CommandSucceedsIff(
    root: NodeId, own: NodeId, stored: Option<SignedPolicy>, edit: Edit, now: int, ttl: nat)
    requires Sound(root, stored)
    ensures var p := Typed(root, stored);
      Ran(root, own, stored, edit, now, ttl).1.Ok? <==>
        && (stored.Some? || edit.Init?)
        && !NeverRuns(own, edit) && (edit.BanPerson? ==> edit.person.issuer in p.issuers)
        && Changed(edit, p).Ok? && ValidPolicy(Changed(edit, p).value)
        && (p.directories != [] && Changed(edit, p).value.directories == [] ==> edit.Init?)
  {
    PrecheckIff(root, own, stored, edit);
    if Precheck(root, own, stored, edit).Ok? && MustKeepDirectory(root, stored, edit).Ok? {
      var mustKeep := MustKeepDirectory(root, stored, edit).value;
      RanCommits(root, own, stored, edit, mustKeep, now, ttl);
      CommitOkIff(root, stored, edit, mustKeep, now, ttl);
    }
  }

  lemma CommitOkIff(root: NodeId, base: Option<SignedPolicy>, edit: Edit, mustKeep: bool, now: int, ttl: nat)
    requires Sound(root, base)
    ensures Committed(root, base, base, edit, mustKeep, now, ttl).1.Ok? <==>
      && Changed(edit, Typed(root, base)).Ok? && ValidPolicy(Changed(edit, Typed(root, base)).value)
      && (mustKeep ==> Changed(edit, Typed(root, base)).value.directories != [])
  {
    if NextSigned(root, base, edit, mustKeep, now, ttl).Ok? {
      NextSignedIs(root, base, edit, mustKeep, now, ttl);
    }
    if Changed(edit, Typed(root, base)).Ok? && ValidPolicy(Changed(edit, Typed(root, base)).value)
       && (mustKeep ==> Changed(edit, Typed(root, base)).value.directories != [])
    {
      CommitOk(root, base, edit, mustKeep, now, ttl);
    }
  }

  // ---------------------------------------------------------------------------
  // Effects
  // ---------------------------------------------------------------------------

  /** Each field an admin gives a service is in the policy after the commit; any other keeps its value. */
  lemma GivenFieldsLand(root: NodeId, history: seq<Commit>, i: nat)
    requires OneChain(root, history) && i < |history|
    requires history[i].edit.AddService? || history[i].edit.SetService?
    ensures var (name, e) := (history[i].edit.name, history[i].edit.edit);
      var (p, q) := (PolicyAt(root, history, i).services, PolicyAt(root, history, i + 1).services);
      && (history[i].edit.AddService? <==> name !in p) && q.Keys == p.Keys + {name}
      && (forall s :: s in p && s != name ==> q[s] == p[s])
      && (e.description.Some? ==> q[name].description == e.description.value)
      && (e.description.None? ==> q[name].description == if name in p then p[name].description else "")
      && (e.allow.Some? ==> q[name].allow == e.allow.value)
      && (e.allow.None? ==> q[name].allow == if name in p then p[name].allow else [])
      && (e.hosts.Some? ==> q[name].hosts == e.hosts.value)
      && (e.hosts.None? ==> q[name].hosts == if name in p then p[name].hosts else [])
  {
    CommitChanges(root, history, i);
  }

  /** What a commit defines is defined, what it takes out is gone, and nothing else of that kind moves. */
  lemma DefinitionsLand(root: NodeId, history: seq<Commit>, i: nat)
    requires OneChain(root, history) && i < |history|
    ensures var (p, q, edit) := (PolicyAt(root, history, i), PolicyAt(root, history, i + 1), history[i].edit);
      match edit
      case SetRole(role, matchers) =>
        role in q.roles && q.roles[role] == matchers
        && forall r :: r != role ==> (r in q.roles <==> r in p.roles) && (r in p.roles ==> q.roles[r] == p.roles[r])
      case RemoveRole(role) =>
        role in p.roles && role !in q.roles
        && forall r :: r != role ==> (r in q.roles <==> r in p.roles) && (r in p.roles ==> q.roles[r] == p.roles[r])
      case RemoveService(name) =>
        name in p.services && name !in q.services
        && forall s :: s != name ==>
             (s in q.services <==> s in p.services) && (s in p.services ==> q.services[s] == p.services[s])
      case SetIssuer(issuer, config) =>
        issuer in q.issuers && q.issuers[issuer] == config
        && forall j :: j != issuer ==>
             (j in q.issuers <==> j in p.issuers) && (j in p.issuers ==> q.issuers[j] == p.issuers[j])
      case Init(issuer, config) => issuer in q.issuers && q.issuers[issuer] == config
      case RemoveIssuer(issuer) =>
        issuer in p.issuers && issuer !in q.issuers && forall j :: j in q.issuers <==> j in p.issuers && j != issuer
      case BanPerson(person) => forall b :: b in q.personBans <==> b in p.personBans || b == person
      case LiftPerson(person) => forall b :: b in q.personBans <==> b in p.personBans && b != person
      case BanNode(node) => forall n :: n in q.bans <==> n in p.bans || n == node
      case LiftNode(node) => forall n :: n in q.bans <==> n in p.bans && n != node
      case ChangeSettings(beat, life) =>
        && (beat.Some? ==> q.settings.beatSecs == beat.value)
        && (beat.None? ==> q.settings.beatSecs == p.settings.beatSecs)
        && (life.Some? ==> q.settings.freshSecs == life.value)
        && (life.None? ==> q.settings.freshSecs == p.settings.freshSecs)
      case _ => true
  {
    CommitChanges(root, history, i);
  }

  /** A node taken out of a list of distinct ones leaves the others where they were. */
  lemma RetainCuts(nodes: seq<NodeId>, k: nat)
    requires k < |nodes| && Distinct(nodes)
    ensures Retain(nodes, nodes[k]) == nodes[..k] + nodes[k + 1..]
  {
    RetainParts(nodes[..k], nodes[k], nodes[k + 1..]);
    assert nodes == nodes[..k] + [nodes[k]] + nodes[k + 1..];
  }

  lemma {:induction false} RetainParts(before: seq<NodeId>, node: NodeId, after: seq<NodeId>)
    requires node !in before && node !in after
    ensures Retain(before + [node] + after, node) == before + after
    decreases |after|
  {
    var all := before + [node] + after;
    if after == [] {
      assert all[..|all| - 1] == before && before + after == before;
    } else {
      var init, last := after[..|after| - 1], after[|after| - 1];
      RetainParts(before, node, init);
      assert all[..|all| - 1] == before + [node] + init;
      assert before + after == before + init + [last];
    }
  }

  /** A directory is listed last; one dropped, or removed as a node, is cut out with the others left in order. */
  lemma DirectoriesKeepOrder(root: NodeId, history: seq<Commit>, i: nat, k: nat)
    requires OneChain(root, history) && i < |history|
    ensures var (p, q, edit) := (PolicyAt(root, history, i), PolicyAt(root, history, i + 1), history[i].edit);
      && (edit.AddDirectory? ==> q.directories == p.directories + [edit.node])
      && ((edit.RemoveDirectory? || edit.BanNode?) && k < |p.directories| && p.directories[k] == edit.node ==>
            q.directories == p.directories[..k] + p.directories[k + 1..])
  {
    CommitChanges(root, history, i);
    ListedOnce(root, history, i);
    EditKeepsOrder(history[i].edit, PolicyAt(root, history, i), k);
  }

  lemma EditKeepsOrder(edit: Edit, p: Policy, k: nat)
    requires Changed(edit, p).Ok? && Distinct(p.directories)
    ensures var q := Changed(edit, p).value;
      && (edit.AddDirectory? ==> q.directories == p.directories + [edit.node])
      && ((edit.RemoveDirectory? || edit.BanNode?) && k < |p.directories| && p.directories[k] == edit.node ==>
            q.directories == p.directories[..k] + p.directories[k + 1..])
  {
    if (edit.RemoveDirectory? || edit.BanNode?) && k < |p.directories| && p.directories[k] == edit.node {
      RetainCuts(p.directories, k);
    }
  }

  /** The same of every service's hosts when a node is removed; the rest of each service stays. */
  lemma HostsKeepOrder(root: NodeId, history: seq<Commit>, i: nat, name: ServiceName, k: nat)
    requires OneChain(root, history) && i < |history| && history[i].edit.BanNode?
    requires name in PolicyAt(root, history, i).services
    ensures var (p, q) := (PolicyAt(root, history, i).services, PolicyAt(root, history, i + 1).services);
      && q.Keys == p.Keys && q[name] == p[name].(hosts := q[name].hosts)
      && (history[i].edit.node !in p[name].hosts ==> q[name] == p[name])
      && (k < |p[name].hosts| && p[name].hosts[k] == history[i].edit.node ==>
            q[name].hosts == p[name].hosts[..k] + p[name].hosts[k + 1..])
  {
    CommitChanges(root, history, i);
    var hosts := PolicyAt(root, history, i).services[name].hosts;
    if i > 0 {
      HistoryIsValid(root, history, i);
      assert ValidService(PolicyAt(root, history, i).services[name], PolicyAt(root, history, i).roles,
                          PolicyAt(root, history, i).bans);
    }
    if k < |hosts| && hosts[k] == history[i].edit.node {
      RetainCuts(hosts, k);
    }
  }

  /**
    A role as an admin set it is the role callers meet: until some commit is about roles again, whatever else
    is committed, a service that allows that role alone lets in exactly those its matchers let in.
   */
  lemma RoleTakesEffect(
    root: NodeId, history: seq<Commit>, i: nat, j: nat, caller: NodeId, principal: Principal, service: ServiceName)
    requires OneChain(root, history) && i < j <= |history| && history[i].edit.SetRole?
    requires Untouched(history, i + 1, j, RolePart)
    requires service in PolicyAt(root, history, j).services
    requires PolicyAt(root, history, j).services[service].allow == [history[i].edit.role]
    ensures var (p, role, matchers) := (PolicyAt(root, history, j), history[i].edit.role, history[i].edit.matchers);
      Authorize(p, caller, Some(principal), service).Ok?
      <==> exists m :: m in matchers && Passes(p, caller, principal, service, role, [m])
  {
    var p, role := PolicyAt(root, history, j), history[i].edit.role;
    DefinitionsLand(root, history, i);
    PartStays(root, history, i + 1, j, RolePart);
    OneRoleDecides(p, caller, principal, service);
    OneMatcherDecides(p, caller, principal, service, role, p.roles[role]);
  }

  lemma NextExpiry(root: NodeId, history: seq<Commit>, i: nat)
    requires OneChain(root, history) && i < |history|
    ensures var (asked, before) := (history[i].now + history[i].ttl, PolicyAt(root, history, i).notAfter);
      PolicyAt(root, history, i + 1).notAfter == if i > 0 && asked < before then before else asked
  {
    CommitIs(root, history, i);
  }

  /** The expiry is the longest that any commit so far asked for. */
  lemma {:induction false} ExpiryIsTheLongestAsked(root: NodeId, history: seq<Commit>, j: nat) returns (k: nat)
    requires OneChain(root, history) && 0 < j <= |history|
    ensures k < j && PolicyAt(root, history, j).notAfter == history[k].now + history[k].ttl
    ensures forall n :: 0 <= n < j ==> history[n].now + history[n].ttl <= PolicyAt(root, history, j).notAfter
  {
    NextExpiry(root, history, j - 1);
    k := j - 1;
    if j > 1 {
      var before := ExpiryIsTheLongestAsked(root, history, j - 1);
      if history[j - 1].now + history[j - 1].ttl < PolicyAt(root, history, j - 1).notAfter {
        k := before;
      }
    }
  }

  // ---------------------------------------------------------------------------
  // What no run ever commits
  // ---------------------------------------------------------------------------

  function EditOf(stage: Stage): Edit {
    match stage
    case Checked(edit) => edit
    case Ready(edit, _) => edit
    case Candidate(_, commit) => commit.edit
  }

  /** Nothing running or committed is a command that never runs, and the first to read a policy is `init`. */
  ghost predicate OnlyChecked(own: NodeId, w: World) {
    && (forall id :: id in w.running ==> !NeverRuns(own, EditOf(w.running[id])))
    && (forall c :: c in w.history ==> !NeverRuns(own, c.edit))
    && (w.history == [] ==> w.stored == None)
    && (w.history == [] ==> forall id :: id in w.running && !w.running[id].Checked? ==> EditOf(w.running[id]).Init?)
    && (w.history != [] ==> w.history[0].edit.Init?)
  }

  lemma StepKeepsChecked(root: NodeId, own: NodeId, w: World, step: Step)
    requires OnlyChecked(own, w) && Enabled(root, own, w, step)
    ensures OnlyChecked(own, After(root, own, w, step))
  {
    if step.Swap? {
      SwapKeepsChecked(root, own, w, step.id);
    }
  }

  lemma SwapKeepsChecked(root: NodeId, own: NodeId, w: World, id: nat)
    requires OnlyChecked(own, w) && Enabled(root, own, w, Swap(id))
    ensures OnlyChecked(own, After(root, own, w, Swap(id)))
  {
    var after, commit := After(root, own, w, Swap(id)), w.running[id].commit;
    assert EditOf(w.running[id]) == commit.edit;
    assert after.history[0] == if w.history == [] then commit else w.history[0];
  }

  /**
    However commands interleave, no commit ever removes the admin's own node, leaves a role without a matcher
    or changes no setting, and the first commit is `init`'s.
   */
  lemma {:induction false} RunsAreChecked(root: NodeId, own: NodeId, worlds: seq<World>, i: nat)
    requires Run(root, own, worlds) && i < |worlds|
    ensures OnlyChecked(own, worlds[i])
  {
    if i > 0 {
      RunsAreChecked(root, own, worlds, i - 1);
      assert Next(root, own, worlds[i - 1], worlds[i - 1 + 1]);
      var step :| Enabled(root, own, worlds[i - 1], step) && worlds[i] == After(root, own, worlds[i - 1], step);
      StepKeepsChecked(root, own, worlds[i - 1], step);
    }
  }

  /** So the admin never shuts itself out: at no point of any run is its own node banned. */
  lemma AdminStaysIn(root: NodeId, own: NodeId, worlds: seq<World>, i: nat, k: nat)
    requires Run(root, own, worlds) && i < |worlds| && k <= |worlds[i].history|
    ensures OneChain(root, worlds[i].history)
    ensures own !in PolicyAt(root, worlds[i].history, k).bans
    ensures forall r :: r in PolicyAt(root, worlds[i].history, k).roles ==>
      PolicyAt(root, worlds[i].history, k).roles[r] != []
  {
    NoLostUpdate(root, own, worlds, i);
    RunsAreChecked(root, own, worlds, i);
    NeverBanned(root, own, worlds[i].history, k);
    if k > 0 {
      HistoryIsValid(root, worlds[i].history, k);
    }
  }

  lemma {:induction false} NeverBanned(root: NodeId, own: NodeId, history: seq<Commit>, k: nat)
    requires OneChain(root, history) && k <= |history|
    requires forall c :: c in history ==> c.edit != BanNode(own)
    ensures own !in PolicyAt(root, history, k).bans
  {
    if k > 0 {
      NeverBanned(root, own, history, k - 1);
      CommitChanges(root, history, k - 1);
      assert history[k - 1] in history;
    }
  }

  // ---------------------------------------------------------------------------
  // What interleaved commands had read
  // ---------------------------------------------------------------------------

  /** At some point so far the stored policy passed the checks `edit` makes first. */
  ghost predicate WasChecked(root: NodeId, own: NodeId, history: seq<Commit>, edit: Edit) {
    exists k :: 0 <= k <= |history| && Precheck(root, own, StoredAt(history, k), edit).Ok?
  }

  /** At some point so far the stored policy gave the guard this answer. */
  ghost predicate WasGuarded(root: NodeId, history: seq<Commit>, edit: Edit, mustKeep: bool) {
    exists k :: 0 <= k <= |history| && MustKeepDirectory(root, StoredAt(history, k), edit) == Ok(mustKeep)
  }

  ghost predicate StageRead(root: NodeId, own: NodeId, history: seq<Commit>, stage: Stage) {
    match stage
    case Checked(edit) => WasChecked(root, own, history, edit)
    case Ready(edit, mustKeep) => WasChecked(root, own, history, edit) && WasGuarded(root, history, edit, mustKeep)
    case Candidate(_, c) => WasChecked(root, own, history, c.edit) && WasGuarded(root, history, c.edit, c.mustKeep)
  }

  ghost predicate CommitRead(root: NodeId, own: NodeId, history: seq<Commit>, i: nat)
    requires i < |history|
  {
    && WasChecked(root, own, history[..i], history[i].edit)
    && WasGuarded(root, history[..i], history[i].edit, history[i].mustKeep)
  }

  ghost predicate AllRead(root: NodeId, own: NodeId, w: World) {
    && w.stored == StoredAt(w.history, |w.history|)
    && (forall id :: id in w.running ==> StageRead(root, own, w.history, w.running[id]))
    && (forall i :: 0 <= i < |w.history| ==> CommitRead(root, own, w.history, i))
  }

  lemma StillRead(root: NodeId, own: NodeId, history: seq<Commit>, c: Commit, stage: Stage)
    requires StageRead(root, own, history, stage)
    ensures StageRead(root, own, history + [c], stage)
  {
    var edit := EditOf(stage);
    var k :| 0 <= k <= |history| && Precheck(root, own, StoredAt(history, k), edit).Ok?;
    assert StoredAt(history + [c], k) == StoredAt(history, k);
    if !stage.Checked? {
      var mustKeep := if stage.Ready? then stage.mustKeep else stage.commit.mustKeep;
      var n :| 0 <= n <= |history| && MustKeepDirectory(root, StoredAt(history, n), edit) == Ok(mustKeep);
      assert StoredAt(history + [c], n) == StoredAt(history, n);
    }
  }

  lemma SwapKeepsRead(root: NodeId, own: NodeId, w: World, id: nat)
    requires AllRead(root, own, w) && id in w.running && w.running[id].Candidate?
    ensures AllRead(root, own, World(Some(w.running[id].commit.signed), w.running - {id},
                                     w.history + [w.running[id].commit]))
  {
    var c := w.running[id].commit;
    var more := w.history + [c];
    forall n | n in w.running - {id} ensures StageRead(root, own, more, w.running[n]) {
      StillRead(root, own, w.history, c, w.running[n]);
    }
    forall i | 0 <= i < |more| ensures CommitRead(root, own, more, i) {
      assert more[..i] == w.history[..i];
      assert i < |w.history| ==> CommitRead(root, own, w.history, i);
      assert w.history[..|w.history|] == w.history;
    }
  }

  lemma StepKeepsRead(root: NodeId, own: NodeId, w: World, step: Step)
    requires AllRead(root, own, w) && Enabled(root, own, w, step)
    ensures AllRead(root, own, After(root, own, w, step))
  {
    if step.Swap? {
      SwapKeepsRead(root, own, w, step.id);
    }
  }

  /**
    However commands interleave, whatever a commit was checked against was stored at some point before it:
    there the command's checks passed, and there its guard read what the commit says it read.
   */
  lemma {:induction false} CommitsWereRead(root: NodeId, own: NodeId, worlds: seq<World>, i: nat)
    requires Run(root, own, worlds) && i < |worlds|
    ensures AllRead(root, own, worlds[i])
  {
    if i > 0 {
      CommitsWereRead(root, own, worlds, i - 1);
      assert Next(root, own, worlds[i - 1], worlds[i - 1 + 1]);
      var step :| Enabled(root, own, worlds[i - 1], step) && worlds[i] == After(root, own, worlds[i - 1], step);
      StepKeepsRead(root, own, worlds[i - 1], step);
    }
  }

  /**
    So in every interleaved run the last directory is dropped only by a command that began while none was
    listed, and a person is banned under an issuer only if it was trusted at some point before.
   */
  lemma BreaksOnlyWhatWasOnce(root: NodeId, own: NodeId, worlds: seq<World>, i: nat, n: nat) returns (k: nat)
    requires Run(root, own, worlds) && i < |worlds| && n < |worlds[i].history|
    ensures OneChain(root, worlds[i].history) && k <= n
    ensures var (history, edit) := (worlds[i].history, worlds[i].history[n].edit);
      && (PolicyAt(root, history, n).directories != [] && PolicyAt(root, history, n + 1).directories == [] ==>
            PolicyAt(root, history, k).directories == [])
      && (edit.BanPerson? ==> edit.person.issuer in PolicyAt(root, history, k).issuers)
  {
    NoLostUpdate(root, own, worlds, i);
    CommitsWereRead(root, own, worlds, i);
    var history := worlds[i].history;
    var edit := history[n].edit;
    assert CommitRead(root, own, history, n);
    if edit.BanPerson? {
      k :| 0 <= k <= n && Precheck(root, own, StoredAt(history[..n], k), edit).Ok?;
    } else {
      k :| 0 <= k <= n && MustKeepDirectory(root, StoredAt(history[..n], k), edit) == Ok(history[n].mustKeep);
    }
    assert StoredAt(history[..n], k) == StoredAt(history, k);
    HistoryIsSound(root, history, k);
    if PolicyAt(root, history, n).directories != [] {
      CommitKeepsDirectoryIff(root, history, n);
    }
  }
}
