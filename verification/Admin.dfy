/** The admin's one edit path: read the stored policy, change it, sign the next version, swap it in. */
module Admin {
  import opened Prelude
  import opened Terms
  import opened Heads
  import opened Policies
  import opened RoundTrip
  import opened Edits

  /** A signed policy that verified, and the policy its items make. */
  datatype Held = Held(signed: SignedPolicy, policy: Policy)

  function ReadHeld(root: NodeId, stored: Option<SignedPolicy>): Result<Option<Held>, AdminError> {
    if stored.None? then Ok(None)
    else
      match VerifyPolicy(stored.value, root)
      case Err(e) => Err(Refused(e))
      case Ok(_) =>
        VerifiedParts(stored.value, root);
        Ok(Some(Held(stored.value, ToPolicy(stored.value).value)))
  }

  function NeedHeld(root: NodeId, stored: Option<SignedPolicy>): Result<Held, AdminError> {
    var held :- ReadHeld(root, stored);
    if held.Some? then Ok(held.value) else Err(NoPolicy)
  }

  /** What a command looks at before it starts its edit. */
  function Precheck(root: NodeId, own: NodeId, stored: Option<SignedPolicy>, edit: Edit): Result<(), AdminError> {
    match edit
    case SetRole(_, matchers) => Require(matchers != [], NoMatchers)
    case BanPerson(person) =>
      var held :- NeedHeld(root, stored);
      Require(person.issuer in held.policy.issuers, UntrustedIssuer)
    case BanNode(node) =>
      var _ :- NeedHeld(root, stored);
      Require(node != own, OwnNode)
    case LiftPerson(_) =>
      var _ :- NeedHeld(root, stored);
      Ok(())
    case LiftNode(_) =>
      var _ :- NeedHeld(root, stored);
      Ok(())
    case ChangeSettings(beat, life) => Require(beat.Some? || life.Some?, PrintsOnly)
    case _ => Ok(())
  }

  /** Whether the edit must leave a directory: every edit but `init`'s reads the stored policy for it. */
  function MustKeepDirectory(root: NodeId, stored: Option<SignedPolicy>, edit: Edit): Result<bool, AdminError> {
    if edit.Init? then Ok(false)
    else
      var held :- NeedHeld(root, stored);
      Ok(held.policy.directories != [])
  }

  function Later(a: int, b: int): int {
    if a < b then b else a
  }

  /** An edit never shortens the policy's lifetime. */
  function Until(base: Option<Held>, now: int, ttl: nat): int {
    if base.None? then now + ttl else Later(now + ttl, base.value.policy.notAfter)
  }

  function BasePolicy(root: NodeId, base: Option<Held>): Policy {
    if base.None? then EmptyPolicy(root) else base.value.policy
  }

  /** The policy an edit signs next. */
  function NextPolicy(root: NodeId, base: Option<Held>, edit: Edit, mustKeep: bool, now: int, ttl: nat)
    : Result<Policy, AdminError>
  {
    var changed :- Changed(edit, BasePolicy(root, base));
    var _ :- Require(!(mustKeep && changed.directories == []), LeavesNoDirectory);
    Ok(Stamped(changed, now, Until(base, now, ttl)))
  }

  function NextSigned(
    root: NodeId, base: Option<SignedPolicy>, edit: Edit, mustKeep: bool, now: int, ttl: nat)
    : Result<SignedPolicy, AdminError>
  {
    var held :- ReadHeld(root, base);
    var next :- NextPolicy(root, held, edit, mustKeep, now, ttl);
    match SignWith(next, root, base)
    case Ok(signed) => Ok(signed)
    case Err(e) => Err(Refused(e))
  }

  /** Whether the store takes `candidate` over what it holds. */
  function Adopts(root: NodeId, stored: Option<SignedPolicy>, candidate: SignedPolicy, now: int)
    : Result<bool, AdminError>
  {
    if VerifyPolicy(candidate, root).Err? then Err(Refused(VerifyPolicy(candidate, root).error))
    else if CheckNotExpired(candidate.head, now).Err? then Err(Refused(Expired))
    else
      var held :- ReadHeld(root, stored);
      Ok(held.None? || IsNewerThan(candidate.head, held.value.signed.head))
  }

  /** A whole command run alone: what is stored after it, and what it returns. */
  function Ran(root: NodeId, own: NodeId, stored: Option<SignedPolicy>, edit: Edit, now: int, ttl: nat)
    : (Option<SignedPolicy>, Result<SignedPolicy, AdminError>)
  {
    match Precheck(root, own, stored, edit)
    case Err(e) => (stored, Err(e))
    case Ok(_) =>
      match MustKeepDirectory(root, stored, edit)
      case Err(e) => (stored, Err(e))
      case Ok(mustKeep) => Committed(root, stored, stored, edit, mustKeep, now, ttl)
  }

  /** The part under the store's lock: sign over `base`, and swap if strictly newer than what is stored now. */
  function Committed(
    root: NodeId, stored: Option<SignedPolicy>, base: Option<SignedPolicy>,
    edit: Edit, mustKeep: bool, now: int, ttl: nat)
    : (Option<SignedPolicy>, Result<SignedPolicy, AdminError>)
  {
    match NextSigned(root, base, edit, mustKeep, now, ttl)
    case Err(e) => (stored, Err(e))
    case Ok(signed) =>
      match Adopts(root, stored, signed, now)
      case Err(e) => (stored, Err(e))
      case Ok(false) => (stored, Err(ChangedMeanwhile))
      case Ok(true) => (Some(signed), Ok(signed))
  }

  class Keystore {
    const root: NodeId
    const own: NodeId
    var stored: Option<SignedPolicy>

    constructor (root: NodeId, own: NodeId)
      ensures stored == None && this.root == root && this.own == own
    {
      this.root, this.own, stored := root, own, None;
    }

    /** Compare and swap: only a verified, unexpired and strictly newer policy is written. */
    method AdoptIfNewer(candidate: SignedPolicy, now: int) returns (r: Result<bool, AdminError>)
      modifies this
      ensures r == Adopts(root, old(stored), candidate, now)
      ensures stored == if r == Ok(true) then Some(candidate) else old(stored)
    {
      var verified := VerifyPolicy(candidate, root);
      if verified.Err? {
        return Err(Refused(verified.error));
      }
      if CheckNotExpired(candidate.head, now).Err? {
        return Err(Refused(Expired));
      }
      var held :- ReadHeld(root, stored);
      if held.Some? && !IsNewerThan(candidate.head, held.value.signed.head) {
        return Ok(false);
      }
      stored := Some(candidate);
      return Ok(true);
    }

    /** The next policy, drafted, stamped and signed, but not stored. */
    method Candidate(edit: Edit, mustKeep: bool, now: int, ttl: nat) returns (r: Result<SignedPolicy, AdminError>)
      ensures r == NextSigned(root, stored, edit, mustKeep, now, ttl)
    {
      var held :- ReadHeld(root, stored);
      var next := new Draft(BasePolicy(root, held));
      var changed := next.Apply(edit);
      if changed.Err? {
        return Err(changed.error);
      }
      if mustKeep && next.directories == [] {
        return Err(LeavesNoDirectory);
      }
      next.Stamp(now, Until(held, now, ttl));
      match SignWith(next.Value(), root, stored) {
        case Err(e) => return Err(Refused(e));
        case Ok(signed) => return Ok(signed);
      }
    }

    method SignNext(edit: Edit, mustKeep: bool, now: int, ttl: nat) returns (r: Result<SignedPolicy, AdminError>)
      modifies this
      ensures (stored, r) == Committed(root, old(stored), old(stored), edit, mustKeep, now, ttl)
    {
      var signed :- Candidate(edit, mustKeep, now, ttl);
      var adopted :- AdoptIfNewer(signed, now);
      if !adopted {
        return Err(ChangedMeanwhile);
      }
      return Ok(signed);
    }

    method Run(edit: Edit, now: int, ttl: nat) returns (r: Result<SignedPolicy, AdminError>)
      modifies this
      ensures (stored, r) == Ran(root, own, old(stored), edit, now, ttl)
    {
      var _ :- Precheck(root, own, stored, edit);
      var mustKeep :- MustKeepDirectory(root, stored, edit);
      r := SignNext(edit, mustKeep, now, ttl);
    }
  }

  // ---------------------------------------------------------------------------
  // What one commit keeps
  // ---------------------------------------------------------------------------

  /** Everything a stored policy has: it verifies under the root. */
  predicate Sound(root: NodeId, stored: Option<SignedPolicy>) {
    stored.Some? ==> VerifyPolicy(stored.value, root).Ok?
  }

  function Typed(root: NodeId, stored: Option<SignedPolicy>): (p: Policy)
    requires Sound(root, stored)
  {
    if stored.None? then EmptyPolicy(root)
    else
      VerifiedParts(stored.value, root);
      ToPolicy(stored.value).value
  }

  lemma ChangedKeepsStamps(edit: Edit, p: Policy)
    requires Changed(edit, p).Ok?
    ensures var q := Changed(edit, p).value;
      q.fabric == p.fabric && q.version == p.version && q.issued == p.issued && q.notAfter == p.notAfter
  {
  }

  lemma TypedStamps(root: NodeId, signed: SignedPolicy)
    requires VerifyPolicy(signed, root).Ok?
    ensures var p := Typed(root, Some(signed));
      p.fabric == root && p.version == signed.head.head.version && p.notAfter == signed.head.head.notAfter
      && p.directories == signed.head.head.directories
  {
    VerifiedParts(signed, root);
    GatheredHead(signed.head.head, signed.items);
  }

  /** What signing the next version makes, from a base that verifies. */
  lemma NextSignedIs(
    root: NodeId, base: Option<SignedPolicy>, edit: Edit, mustKeep: bool, now: int, ttl: nat)
    requires Sound(root, base)
    requires NextSigned(root, base, edit, mustKeep, now, ttl).Ok?
    ensures var signed := NextSigned(root, base, edit, mustKeep, now, ttl).value;
      var p := Typed(root, base);
      && Changed(edit, p).Ok?
      && Sound(root, Some(signed))
      && Typed(root, Some(signed))
         == Changed(edit, p).value.(version := p.version + 1, issued := now,
                                    notAfter := if base.None? then now + ttl else Later(now + ttl, p.notAfter))
      && SignWith(Typed(root, Some(signed)), root, base) == Ok(signed)
      && ValidPolicy(Typed(root, Some(signed)))
      && signed.head.head.version == p.version + 1
      && (mustKeep ==> Typed(root, Some(signed)).directories != [])
  {
    var signed := NextSigned(root, base, edit, mustKeep, now, ttl).value;
    var held := ReadHeld(root, base).value;
    var next := NextPolicy(root, held, edit, mustKeep, now, ttl).value;
    if base.Some? {
      VerifiedParts(base.value, root);
    }
    ChangedKeepsStamps(edit, Typed(root, base));
    SignedVerifies(next, root, base);
    TypedStamps(root, signed);
    VerifiedParts(signed, root);
  }
}
