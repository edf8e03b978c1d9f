/**
  Compare-and-swap over versions, whatever rule computes one version from the one before it.

  A candidate computed from a policy that was stored once, and swapped in only over an older one, can only
  have been computed from the policy it replaces.
 */
module Histories {
  import opened Prelude
  import opened Terms
  import opened Edits

  /** One policy the store took: the edit, what it had read, when it was signed, and the result. */
  datatype Commit = Commit(edit: Edit, mustKeep: bool, now: int, ttl: nat, signed: SignedPolicy)

  /** Whether a commit is what signing over a stored policy makes. */
  type Rule = (Option<SignedPolicy>, Commit) -> bool

  /** What was stored when `history` had `i` commits. */
  function StoredAt(history: seq<Commit>, i: nat): Option<SignedPolicy>
    requires i <= |history|
  {
    if i == 0 then None else Some(history[i - 1].signed)
  }

  function VersionOf(stored: Option<SignedPolicy>): nat {
    if stored.None? then 0 else stored.value.head.head.version
  }

  /** Whether commit `i` was computed from exactly the policy before it. */
  predicate FromPrevious(rule: Rule, history: seq<Commit>, i: nat)
    requires i < |history|
  {
    rule(StoredAt(history, i), history[i])
  }

  ghost predicate Chained(rule: Rule, history: seq<Commit>) {
    forall i :: 0 <= i < |history| ==> FromPrevious(rule, history, i)
  }

  ghost predicate RaisesByOne(rule: Rule) {
    forall base, c :: rule(base, c) ==> VersionOf(Some(c.signed)) == VersionOf(base) + 1
  }

  /** The version counts the commits, so one version names one policy. */
  lemma {:induction false} VersionsCount(rule: Rule, history: seq<Commit>, i: nat)
    requires RaisesByOne(rule) && Chained(rule, history) && i <= |history|
    ensures VersionOf(StoredAt(history, i)) == i
  {
    if i > 0 {
      VersionsCount(rule, history, i - 1);
      assert FromPrevious(rule, history, i - 1);
    }
  }

  /** A policy the store held at some point, maybe not the present one. */
  ghost predicate WasStored(history: seq<Commit>, base: Option<SignedPolicy>) {
    exists i :: 0 <= i <= |history| && base == StoredAt(history, i)
  }

  lemma StillStored(history: seq<Commit>, c: Commit, base: Option<SignedPolicy>)
    requires WasStored(history, base)
    ensures WasStored(history + [c], base)
  {
    var i :| 0 <= i <= |history| && base == StoredAt(history, i);
    assert StoredAt(history + [c], i) == base;
  }

  lemma ChainGrows(rule: Rule, history: seq<Commit>, c: Commit)
    requires Chained(rule, history) && rule(StoredAt(history, |history|), c)
    ensures Chained(rule, history + [c])
  {
    forall i | 0 <= i < |history + [c]| ensures FromPrevious(rule, history + [c], i) {
      assert StoredAt(history + [c], i) == StoredAt(history, i);
      assert i < |history| ==> FromPrevious(rule, history, i);
    }
  }

  /**
    A swap that goes through, that is to a strictly higher version, swaps exactly the policy the candidate
    was computed from, and extends the chain.
   */
  lemma SwapExtends(rule: Rule, history: seq<Commit>, base: Option<SignedPolicy>, c: Commit)
    requires RaisesByOne(rule) && Chained(rule, history)
    requires WasStored(history, base) && rule(base, c)
    requires VersionOf(Some(c.signed)) > VersionOf(StoredAt(history, |history|))
    ensures base == StoredAt(history, |history|)
    ensures Chained(rule, history + [c])
  {
    var i: nat :| i <= |history| && base == StoredAt(history, i);
    VersionsCount(rule, history, i);
    VersionsCount(rule, history, |history|);
    ChainGrows(rule, history, c);
  }
}
