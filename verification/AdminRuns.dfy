/** Runs of admin commands: one after another, or interleaved at every read and write. */
module AdminRuns {
  import opened Prelude
  import opened Terms
  import opened Policies
  import opened Provenance
  import opened Edits
  import opened Histories
  import opened Admin

  // ---------------------------------------------------------------------------
  // The committed history
  // ---------------------------------------------------------------------------

  /** A commit is its own edit, signed with its own stamps over the stored policy. */
  function Signs(root: NodeId): Rule {
    (base: Option<SignedPolicy>, c: Commit) =>
      NextSigned(root, base, c.edit, c.mustKeep, c.now, c.ttl) == Ok(c.signed)
  }

  /** Every commit was computed from exactly the policy before it. */
  ghost predicate OneChain(root: NodeId, history: seq<Commit>) {
    Chained(Signs(root), history)
  }

  lemma CommitSigned(root: NodeId, history: seq<Commit>, i: nat)
    requires OneChain(root, history) && i < |history|
    ensures var c := history[i];
      NextSigned(root, StoredAt(history, i), c.edit, c.mustKeep, c.now, c.ttl) == Ok(c.signed)
  {
    assert FromPrevious(Signs(root), history, i);
  }

  /** Signing over a policy that does not verify fails, and what it makes verifies, one version up. */
  lemma SignedOver(root: NodeId, base: Option<SignedPolicy>, c: Commit)
    requires Signs(root)(base, c)
    ensures Sound(root, base) && Sound(root, Some(c.signed))
    ensures VersionOf(Some(c.signed)) == VersionOf(base) + 1
  {
    NextSignedIs(root, base, c.edit, c.mustKeep, c.now, c.ttl);
    if base.Some? {
      TypedStamps(root, base.value);
    }
  }

  lemma SigningRaises(root: NodeId)
    ensures RaisesByOne(Signs(root))
  {
    forall base, c | Signs(root)(base, c) ensures VersionOf(Some(c.signed)) == VersionOf(base) + 1 {
      SignedOver(root, base, c);
    }
  }

  lemma StoredIsSound(root: NodeId, history: seq<Commit>, i: nat)
    requires OneChain(root, history) && i <= |history|
    ensures Sound(root, StoredAt(history, i))
  {
    if i > 0 {
      assert FromPrevious(Signs(root), history, i - 1);
      SignedOver(root, StoredAt(history, i - 1), history[i - 1]);
    }
  }

  /** Every stored policy verifies and its version counts the commits, so one version names one policy. */
  lemma HistoryIsSound(root: NodeId, history: seq<Commit>, i: nat)
    requires OneChain(root, history) && i <= |history|
    ensures Sound(root, StoredAt(history, i))
    ensures Typed(root, StoredAt(history, i)).version == VersionOf(StoredAt(history, i)) == i
  {
    StoredIsSound(root, history, i);
    SigningRaises(root);
    VersionsCount(Signs(root), history, i);
    if i > 0 {
      TypedStamps(root, history[i - 1].signed);
    }
  }

  /** The policy after `i` commits. */
  function PolicyAt(root: NodeId, history: seq<Commit>, i: nat): Policy
    requires OneChain(root, history) && i <= |history|
  {
    HistoryIsSound(root, history, i);
    Typed(root, StoredAt(history, i))
  }

  /** Each commit changes the policy by its edit and its stamps, and by nothing else. */
  lemma CommitIs(root: NodeId, history: seq<Commit>, i: nat)
    requires OneChain(root, history) && i < |history|
    ensures var (p, c) := (PolicyAt(root, history, i), history[i]);
      && Changed(c.edit, p).Ok?
      && PolicyAt(root, history, i + 1)
         == Changed(c.edit, p).value.(version := i + 1, issued := c.now,
                                      notAfter := if i == 0 then c.now + c.ttl else Later(c.now + c.ttl, p.notAfter))
      && ValidPolicy(PolicyAt(root, history, i + 1))
      && SignWith(PolicyAt(root, history, i + 1), root, StoredAt(history, i)) == Ok(c.signed)
      && (c.mustKeep ==> PolicyAt(root, history, i + 1).directories != [])
  {
    HistoryIsSound(root, history, i);
    CommitSigned(root, history, i);
    var c := history[i];
    NextSignedIs(root, StoredAt(history, i), c.edit, c.mustKeep, c.now, c.ttl);
  }

  lemma HistoryIsValid(root: NodeId, history: seq<Commit>, i: nat)
    requires OneChain(root, history) && 0 < i <= |history|
    ensures ValidPolicy(PolicyAt(root, history, i)) && PolicyAt(root, history, i).version == i
  {
    CommitIs(root, history, i - 1);
  }

  lemma CommitChanges(root: NodeId, history: seq<Commit>, i: nat)
    requires OneChain(root, history) && i < |history|
    ensures var (before, after) := (PolicyAt(root, history, i), PolicyAt(root, history, i + 1));
      Changed(history[i].edit, before).Ok? && SameContent(Changed(history[i].edit, before).value, after)
  {
    CommitIs(root, history, i);
  }

  /** The same policy but for its version, signing time and expiry. */
  predicate SameContent(a: Policy, b: Policy) {
    a == b.(version := a.version, issued := a.issued, notAfter := a.notAfter)
  }

  lemma CommitLasts(root: NodeId, history: seq<Commit>, i: nat)
    requires OneChain(root, history) && i < |history|
    ensures var (until, after) := (history[i].now + history[i].ttl, PolicyAt(root, history, i + 1).notAfter);
      until <= after && (i > 0 ==> PolicyAt(root, history, i).notAfter <= after)
  {
    CommitIs(root, history, i);
  }

  /** An edit never shortens the policy's lifetime. */
  lemma {:induction false} LifetimeNeverShortens(root: NodeId, history: seq<Commit>, i: nat, j: nat)
    requires OneChain(root, history) && 1 <= i <= j <= |history|
    ensures PolicyAt(root, history, i).notAfter <= PolicyAt(root, history, j).notAfter
    ensures history[j - 1].now + history[j - 1].ttl <= PolicyAt(root, history, j).notAfter
  {
    CommitLasts(root, history, j - 1);
    if i < j {
      LifetimeNeverShortens(root, history, i, j - 1);
    }
  }

  function PoliciesOf(root: NodeId, history: seq<Commit>): (r: seq<Policy>)
    requires OneChain(root, history)
    ensures |r| == |history| && forall i :: 0 <= i < |r| ==> r[i] == PolicyAt(root, history, i + 1)
  {
    seq(|history|, i requires 0 <= i < |history| => PolicyAt(root, history, i + 1))
  }

  function SignedOf(history: seq<Commit>): (r: seq<SignedPolicy>)
    ensures |r| == |history| && forall i :: 0 <= i < |r| ==> r[i] == history[i].signed
  {
    seq(|history|, i requires 0 <= i < |history| => history[i].signed)
  }

  lemma ChainLink(root: NodeId, history: seq<Commit>, i: nat)
    requires OneChain(root, history) && i < |history|
    ensures LinkedAt(RootSigns(root), PoliciesOf(root, history), SignedOf(history), i)
  {
    CommitResigns(root, history, i);
    assert Before(SignedOf(history), i) == StoredAt(history, i);
  }

  /** The committed policies form a chain of re-signings, so every entry's provenance is known. */
  lemma HistoryIsAChain(root: NodeId, history: seq<Commit>)
    requires OneChain(root, history) && history != []
    ensures Chain(root, PoliciesOf(root, history), SignedOf(history))
  {
    var policies, signed := PoliciesOf(root, history), SignedOf(history);
    forall i | 0 <= i < |signed| ensures LinkedAt(RootSigns(root), policies, signed, i) {
      ChainLink(root, history, i);
    }
    forall i | 0 <= i < |policies| ensures policies[i].version == i + 1 {
      CommitResigns(root, history, i);
    }
  }

  lemma CommitResigns(root: NodeId, history: seq<Commit>, i: nat)
    requires OneChain(root, history) && i < |history|
    ensures SignWith(PolicyAt(root, history, i + 1), root, StoredAt(history, i)) == Ok(history[i].signed)
    ensures PolicyAt(root, history, i + 1).version == i + 1
  {
    CommitIs(root, history, i);
  }

  // ---------------------------------------------------------------------------
  // Interleaved commands
  // ---------------------------------------------------------------------------

  /** How far a command has come; each stage has read the store once more. */
  datatype Stage =
    | Checked(edit: Edit)
    | Ready(edit: Edit, mustKeep: bool)
    | Candidate(base: Option<SignedPolicy>, commit: Commit)

  datatype World = World(stored: Option<SignedPolicy>, running: map<nat, Stage>, history: seq<Commit>)

  datatype Step =
    | Begin(id: nat, edit: Edit)
    | ReadDirectories(id: nat)
    | SignCandidate(id: nat, now: int, ttl: nat)
    | Swap(id: nat)
    | GiveUp(id: nat)

  ghost predicate Enabled(root: NodeId, own: NodeId, w: World, step: Step) {
    match step
    case Begin(id, edit) => id !in w.running && Precheck(root, own, w.stored, edit).Ok?
    case ReadDirectories(id) =>
      id in w.running && w.running[id].Checked? && MustKeepDirectory(root, w.stored, w.running[id].edit).Ok?
    case SignCandidate(id, now, ttl) =>
      && id in w.running && w.running[id].Ready?
      && NextSigned(root, w.stored, w.running[id].edit, w.running[id].mustKeep, now, ttl).Ok?
    case Swap(id) =>
      && id in w.running && w.running[id].Candidate?
      && Adopts(root, w.stored, w.running[id].commit.signed, w.running[id].commit.now) == Ok(true)
    case GiveUp(id) => id in w.running
  }

  ghost function After(root: NodeId, own: NodeId, w: World, step: Step): World
    requires Enabled(root, own, w, step)
  {
    match step
    case Begin(id, edit) => w.(running := w.running[id := Checked(edit)])
    case ReadDirectories(id) =>
      var edit := w.running[id].edit;
      w.(running := w.running[id := Ready(edit, MustKeepDirectory(root, w.stored, edit).value)])
    case SignCandidate(id, now, ttl) =>
      var Ready(edit, mustKeep) := w.running[id];
      var signed := NextSigned(root, w.stored, edit, mustKeep, now, ttl).value;
      w.(running := w.running[id := Candidate(w.stored, Commit(edit, mustKeep, now, ttl, signed))])
    case Swap(id) =>
      var commit := w.running[id].commit;
      World(Some(commit.signed), w.running - {id}, w.history + [commit])
    case GiveUp(id) => w.(running := w.running - {id})
  }

  ghost predicate Next(root: NodeId, own: NodeId, a: World, b: World) {
    exists step :: Enabled(root, own, a, step) && b == After(root, own, a, step)
  }

  ghost predicate Run(root: NodeId, own: NodeId, worlds: seq<World>) {
    && worlds != [] && worlds[0] == World(None, map[], [])
    && forall i :: 0 <= i < |worlds| - 1 ==> Next(root, own, worlds[i], worlds[i + 1])
  }

  /** A candidate was signed over a policy the store held at some point, maybe not the present one. */
  ghost predicate CandidateIs(root: NodeId, history: seq<Commit>, stage: Stage) {
    stage.Candidate? ==> WasStored(history, stage.base) && Signs(root)(stage.base, stage.commit)
  }

  ghost predicate Invariant(root: NodeId, w: World) {
    && w.stored == StoredAt(w.history, |w.history|)
    && OneChain(root, w.history)
    && forall id :: id in w.running ==> CandidateIs(root, w.history, w.running[id])
  }

  lemma NewerThanStored(root: NodeId, stored: Option<SignedPolicy>, candidate: SignedPolicy, now: int)
    requires Adopts(root, stored, candidate, now) == Ok(true)
    ensures stored.Some? ==> VersionOf(Some(candidate)) > VersionOf(stored)
  {
  }

  /** A swap that goes through swaps exactly the policy the candidate was computed from. */
  lemma SwapsItsBase(root: NodeId, w: World, stage: Stage)
    requires Invariant(root, w) && stage.Candidate? && CandidateIs(root, w.history, stage)
    requires Adopts(root, w.stored, stage.commit.signed, stage.commit.now) == Ok(true)
    ensures stage.base == w.stored && OneChain(root, w.history + [stage.commit])
  {
    NewerThanStored(root, w.stored, stage.commit.signed, stage.commit.now);
    SigningRaises(root);
    SwapExtends(Signs(root), w.history, stage.base, stage.commit);
  }

  lemma StepKeepsInvariant(root: NodeId, own: NodeId, w: World, step: Step)
    requires Invariant(root, w) && Enabled(root, own, w, step)
    ensures Invariant(root, After(root, own, w, step))
  {
    var after := After(root, own, w, step);
    if step.Swap? {
      var c := w.running[step.id].commit;
      SwapsItsBase(root, w, w.running[step.id]);
      forall id | id in after.running ensures CandidateIs(root, after.history, after.running[id]) {
        assert CandidateIs(root, w.history, w.running[id]);
        if w.running[id].Candidate? {
          StillStored(w.history, c, w.running[id].base);
        }
      }
    } else {
      forall id | id in after.running ensures CandidateIs(root, after.history, after.running[id]) {
        assert id in w.running ==> CandidateIs(root, w.history, w.running[id]);
      }
    }
  }

  /**
    No lost update.  However commands interleave, each policy the store takes was computed from exactly
    the one it replaces: the committed policies are one chain, each verifies, and the version counts
    them, so one version names one policy.
   */
  lemma {:induction false} NoLostUpdate(root: NodeId, own: NodeId, worlds: seq<World>, i: nat)
    requires Run(root, own, worlds) && i < |worlds|
    ensures Invariant(root, worlds[i])
    ensures forall k :: 0 <= k < |worlds[i].history| ==> worlds[i].history[k].signed.head.head.version == k + 1
    ensures Sound(root, worlds[i].stored)
  {
    if i > 0 {
      NoLostUpdate(root, own, worlds, i - 1);
      assert Next(root, own, worlds[i - 1], worlds[i - 1 + 1]);
      var step :| Enabled(root, own, worlds[i - 1], step) && worlds[i] == After(root, own, worlds[i - 1], step);
      StepKeepsInvariant(root, own, worlds[i - 1], step);
    }
    var history := worlds[i].history;
    forall k | 0 <= k < |history| ensures history[k].signed.head.head.version == k + 1 {
      HistoryIsSound(root, history, k + 1);
    }
    StoredIsSound(root, history, |history|);
  }
}
