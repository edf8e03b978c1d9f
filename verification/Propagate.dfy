/**
  Publishing an edit to the directories, and when the command fails.

  Lists that the program keeps sorted and without repeats are sets here.
 */
module Propagate {
  import opened Prelude
  import opened Terms

  // ---------------------------------------------------------------------------
  // One publish
  // ---------------------------------------------------------------------------

  /** How one directory answered. */
  datatype Answer =
    | Published(version: nat, head: HeadHash)
    | Busy
    | Denied
    | OutOfTurn
    | NoAnswer

  /** What that made of the publish. */
  datatype Took = Delivered | Missed | Refused | Newer(version: nat)

  function TookOf(policy: SignedPolicyHead, answer: Answer): Took {
    match answer
    case Published(version, head) =>
      if version > policy.head.version then Newer(version)
      else if version == policy.head.version then
        if head == HeadHash(policy) then Delivered else Newer(version)
      else Refused
    case Busy => Missed
    case Denied => Refused
    case OutOfTurn => Refused
    case NoAnswer => Missed
  }

  /** A directory took the publish exactly when it now holds this very head; a busy one has not decided. */
  lemma TookSays(policy: SignedPolicyHead, answer: Answer)
    ensures TookOf(policy, answer) == Delivered <==>
      answer.Published? && answer.version == policy.head.version && answer.head == HeadHash(policy)
    ensures TookOf(policy, answer).Newer? <==>
      answer.Published? && answer.version >= policy.head.version
      && (answer.version == policy.head.version ==> answer.head != HeadHash(policy))
    ensures TookOf(policy, answer) == Missed <==> answer.Busy? || answer.NoAnswer?
  {
  }

  datatype Report = Report(
    delivered: set<NodeId>,
    missed: set<NodeId>,
    refused: set<NodeId>,
    dropped: set<NodeId>,
    newer: map<NodeId, nat>)

  /** The report of one outcome per target. */
  function ReportOf(targets: set<NodeId>, took: NodeId -> Took): Report {
    Report(set d | d in targets && took(d) == Delivered,
           set d | d in targets && took(d) in {Missed, Refused},
           set d | d in targets && took(d) == Refused,
           {},
           map d | d in targets && took(d).Newer? :: took(d).version)
  }

  type Answers = NodeId -> Answer

  /**
    Each directory's last outcome: after the first round, one is asked again exactly while it is patient
    and only unreached or busy.
   */
  function LastTook(policy: SignedPolicyHead, patient: set<NodeId>, rounds: seq<Answers>, d: NodeId): Took
    requires rounds != []
  {
    var last := TookOf(policy, rounds[|rounds| - 1](d));
    if |rounds| == 1 then last
    else
      var before := LastTook(policy, patient, rounds[..|rounds| - 1], d);
      if before == Missed && d in patient then last else before
  }

  function Outcomes(policy: SignedPolicyHead, patient: set<NodeId>, rounds: seq<Answers>): NodeId -> Took
    requires rounds != []
  {
    (d: NodeId) => LastTook(policy, patient, rounds, d)
  }

  lemma {:induction false} NothingLeftToAsk(
    policy: SignedPolicyHead, patient: set<NodeId>, rounds: seq<Answers>, k: nat, d: NodeId)
    requires 0 < k <= |rounds|
    requires LastTook(policy, patient, rounds[..k], d) != Missed || d !in patient
    ensures LastTook(policy, patient, rounds, d) == LastTook(policy, patient, rounds[..k], d)
    decreases |rounds|
  {
    if k == |rounds| {
      assert rounds[..k] == rounds;
    } else {
      var init := rounds[..|rounds| - 1];
      assert init[..k] == rounds[..k];
      NothingLeftToAsk(policy, patient, init, k, d);
    }
  }

  lemma NoMoreRounds(
    policy: SignedPolicyHead, targets: set<NodeId>, patient: set<NodeId>, rounds: seq<Answers>, k: nat)
    requires 0 < k <= |rounds|
    requires forall d :: d in targets && d in patient ==> LastTook(policy, patient, rounds[..k], d) != Missed
    ensures ReportOf(targets, Outcomes(policy, patient, rounds))
         == ReportOf(targets, Outcomes(policy, patient, rounds[..k]))
  {
    forall d | d in targets
      ensures LastTook(policy, patient, rounds, d) == LastTook(policy, patient, rounds[..k], d)
    {
      NothingLeftToAsk(policy, patient, rounds, k, d);
    }
  }

  method PublishAll(policy: SignedPolicyHead, targets: set<NodeId>, answers: Answers) returns (report: Report)
    ensures report == ReportOf(targets, (d: NodeId) => TookOf(policy, answers(d)))
  {
    report := Report({}, {}, {}, {}, map[]);
    var left := targets;
    while left != {}
      invariant left <= targets
      invariant report == ReportOf(targets - left, (d: NodeId) => TookOf(policy, answers(d)))
    {
      var target :| target in left;
      match TookOf(policy, answers(target)) {
        case Delivered => report := report.(delivered := report.delivered + {target});
        case Missed => report := report.(missed := report.missed + {target});
        case Refused =>
          report := report.(missed := report.missed + {target}, refused := report.refused + {target});
        case Newer(v) => report := report.(newer := report.newer[target := v]);
      }
      left := left - {target};
    }
    assert targets - left == targets;
  }

  /** A report with one round's answers put in place of those asked again. */
  function Merged(report: Report, again: set<NodeId>, round: Report): Report {
    Report(report.delivered + round.delivered, (report.missed - again) + round.missed,
           report.refused + round.refused, {}, report.newer + round.newer)
  }

  lemma MergedIs(
    targets: set<NodeId>, again: set<NodeId>, before: NodeId -> Took, asked: NodeId -> Took, after: NodeId -> Took)
    requires again <= targets
    requires forall d :: d in again ==> before(d) == Missed && after(d) == asked(d)
    requires forall d :: d in targets - again ==> after(d) == before(d)
    ensures Merged(ReportOf(targets, before), again, ReportOf(again, asked)) == ReportOf(targets, after)
  {
  }

  lemma NextRound(
    policy: SignedPolicyHead, targets: set<NodeId>, patient: set<NodeId>, rounds: seq<Answers>, k: nat,
    again: set<NodeId>)
    requires 0 < k < |rounds| && again <= targets
    requires forall d :: d in targets ==>
      (d in again <==> LastTook(policy, patient, rounds[..k], d) == Missed && d in patient)
    ensures Merged(ReportOf(targets, Outcomes(policy, patient, rounds[..k])), again,
                   ReportOf(again, (d: NodeId) => TookOf(policy, rounds[k](d))))
         == ReportOf(targets, Outcomes(policy, patient, rounds[..k + 1]))
  {
    assert rounds[..k + 1][..k] == rounds[..k];
    MergedIs(targets, again, Outcomes(policy, patient, rounds[..k]), (d: NodeId) => TookOf(policy, rounds[k](d)),
             Outcomes(policy, patient, rounds[..k + 1]));
  }

  /**
    Publishing in rounds, as many as the time allows (`rounds` holds what every directory would answer in
    each): the report holds each target's last outcome.
   */
  method PublishRetrying(
    policy: SignedPolicyHead, targets: set<NodeId>, patient: set<NodeId>, rounds: seq<Answers>)
    returns (report: Report)
    requires rounds != []
    ensures report == ReportOf(targets, Outcomes(policy, patient, rounds))
  {
    report := PublishAll(policy, targets, rounds[0]);
    var k := 1;
    while k < |rounds|
      invariant 1 <= k <= |rounds|
      invariant report == ReportOf(targets, Outcomes(policy, patient, rounds[..k]))
    {
      var again := set d | d in report.missed && d in patient && d !in report.refused;
      if again == {} {
        assert forall d :: d in targets && d in patient ==> d !in again;
        NoMoreRounds(policy, targets, patient, rounds, k);
        return;
      }
      var round := PublishAll(policy, again, rounds[k]);
      NextRound(policy, targets, patient, rounds, k, again);
      report := Merged(report, again, round);
      k := k + 1;
    }
    assert rounds[..k] == rounds;
  }

  // ---------------------------------------------------------------------------
  // Settling
  // ---------------------------------------------------------------------------

  /** Directories the head lists, and those it listed before the edit, but never this node. */
  function Targets(listed: set<NodeId>, earlier: set<NodeId>, own: NodeId): set<NodeId> {
    listed + earlier - {own}
  }

  datatype Failure = StaleHere | ReachedNone | RunningMissed | NotPublished

  predicate HitNone(report: Report) {
    report.delivered == {} && report.missed - report.dropped != {}
  }

  /** What the command reports of a publish, given the running directories it missed. */
  function FromPublish(result: Option<Report>, running: set<NodeId>): Option<Failure> {
    match result
    case Some(report) =>
      if report.newer != map[] then Some(StaleHere)
      else if HitNone(report) && running == {} then None
      else if running == {} then None
      else if HitNone(report) then Some(ReachedNone)
      else Some(RunningMissed)
    case None => Some(NotPublished)
  }

  function MissedRunning(report: Report, reached: set<NodeId>): set<NodeId> {
    set d | d in report.missed && d !in report.dropped && d in reached
  }

  /** The keystore's record of the directories that have taken a publish. */
  class ReachedFile {
    var reached: set<NodeId>

    constructor ()
      ensures reached == {}
    {
      reached := {};
    }

    method NoteReached(delivered: set<NodeId>)
      modifies this
      ensures reached == old(reached) + delivered
    {
      if delivered <= reached {
        assert reached + delivered == reached;
        return;
      }
      reached := reached + delivered;
    }

    /** Running directories are counted before this publish's deliveries are recorded. */
    method Settle(result: Option<Report>) returns (failure: Option<Failure>)
      modifies this
      ensures (reached, failure) == Settled(old(reached), result)
    {
      var running := {};
      if result.Some? {
        running := MissedRunning(result.value, reached);
        NoteReached(result.value.delivered);
      }
      failure := FromPublish(result, running);
    }
  }

  function Settled(reached: set<NodeId>, result: Option<Report>): (set<NodeId>, Option<Failure>) {
    match result
    case None => (reached, FromPublish(None, {}))
    case Some(report) =>
      (reached + report.delivered, FromPublish(result, MissedRunning(report, reached)))
  }

  // ---------------------------------------------------------------------------
  // Runs
  // ---------------------------------------------------------------------------

  /** One command's publish; `Stopped` is one an error stopped. */
  datatype Push =
    | Push(policy: SignedPolicyHead, listed: set<NodeId>, earlier: set<NodeId>, own: NodeId,
           retryEvery: bool, rounds: seq<Answers>)
    | Stopped

  predicate WellFormed(push: Push) {
    push.Push? ==> push.rounds != []
  }

  /** Which targets a publish asks again: those the new head lists that took one before, or all it lists. */
  function Patient(push: Push, reached: set<NodeId>): set<NodeId>
    requires push.Push?
  {
    (if push.retryEvery then Targets(push.listed, push.earlier, push.own) else reached) * push.listed
  }

  function OutcomeFor(push: Push, reached: set<NodeId>): NodeId -> Took
    requires push.Push? && WellFormed(push)
  {
    Outcomes(push.policy, Patient(push, reached), push.rounds)
  }

  function ResultOf(push: Push, reached: set<NodeId>): Option<Report>
    requires WellFormed(push)
  {
    match push
    case Stopped => None
    case Push(policy, listed, earlier, own, _, rounds) =>
      var targets := Targets(listed, earlier, own);
      Some(ReportOf(targets, OutcomeFor(push, reached)).(dropped := targets - listed))
  }

  ghost predicate AllWellFormed(pushes: seq<Push>) {
    forall p :: p in pushes ==> WellFormed(p)
  }

  /** The directories recorded after a run of commands. */
  ghost function ReachedAfter(pushes: seq<Push>): set<NodeId>
    requires AllWellFormed(pushes)
  {
    if pushes == [] then {}
    else
      var init, last := pushes[..|pushes| - 1], pushes[|pushes| - 1];
      Settled(ReachedAfter(init), ResultOf(last, ReachedAfter(init))).0
  }

  /** Whether command `i` of the run delivered its policy to `d`. */
  ghost predicate TookOne(pushes: seq<Push>, i: nat, d: NodeId)
    requires AllWellFormed(pushes) && i < |pushes|
  {
    && pushes[i].Push? && d in Targets(pushes[i].listed, pushes[i].earlier, pushes[i].own)
    && OutcomeFor(pushes[i], ReachedAfter(pushes[..i]))(d) == Delivered
  }

  /** The recorded set is exactly the directories that ever took a publish. */
  lemma {:induction false} ReachedIsEverTook(pushes: seq<Push>, d: NodeId)
    requires AllWellFormed(pushes)
    ensures d in ReachedAfter(pushes) <==> exists i :: 0 <= i < |pushes| && TookOne(pushes, i, d)
  {
    if pushes != [] {
      var n := |pushes| - 1;
      var init := pushes[..n];
      ReachedIsEverTook(init, d);
      forall i | 0 <= i < n ensures TookOne(init, i, d) <==> TookOne(pushes, i, d) {
        assert init[..i] == pushes[..i];
      }
      assert pushes[n] in pushes;
      if d in ReachedAfter(pushes) && d !in ReachedAfter(init) {
        assert TookOne(pushes, n, d);
      }
    }
  }

  lemma {:induction false} DeliveredAnswered(
    policy: SignedPolicyHead, patient: set<NodeId>, rounds: seq<Answers>, d: NodeId)
    returns (r: nat)
    requires rounds != [] && LastTook(policy, patient, rounds, d) == Delivered
    ensures r < |rounds| && rounds[r](d) == Published(policy.head.version, HeadHash(policy))
  {
    r := |rounds| - 1;
    TookSays(policy, rounds[r](d));
    if TookOf(policy, rounds[r](d)) != Delivered {
      r := DeliveredAnswered(policy, patient, rounds[..r], d);
    }
  }

  /** In round `r` of command `push`, `d` answered with the very head published. */
  ghost predicate AnsweredHead(push: Push, r: int, d: NodeId) {
    && push.Push? && 0 <= r < |push.rounds|
    && push.rounds[r](d) == Published(push.policy.head.version, HeadHash(push.policy))
  }

  /**
    Nothing but holding the very head published gets a directory recorded: some answer it gave, in some
    round of some command of the run, named that head's version and hash.
   */
  lemma ReachedHeldTheHead(pushes: seq<Push>, d: NodeId)
    requires AllWellFormed(pushes) && d in ReachedAfter(pushes)
    ensures exists i, r :: 0 <= i < |pushes| && AnsweredHead(pushes[i], r, d)
  {
    ReachedIsEverTook(pushes, d);
    var i :| 0 <= i < |pushes| && TookOne(pushes, i, d);
    var push := pushes[i];
    assert push in pushes;
    var r := DeliveredAnswered(push.policy, Patient(push, ReachedAfter(pushes[..i])), push.rounds, d);
    assert AnsweredHead(push, r, d);
  }

  /** A directory the head of command `n` lists that missed it. */
  ghost predicate ListedMiss(pushes: seq<Push>, n: nat, d: NodeId)
    requires AllWellFormed(pushes) && n < |pushes|
  {
    && pushes[n].Push? && d in pushes[n].listed && d != pushes[n].own
    && OutcomeFor(pushes[n], ReachedAfter(pushes[..n]))(d) in {Missed, Refused}
  }

  /** A directory that answered command `n` with a newer policy, or another at its version. */
  ghost predicate AnsweredNewer(pushes: seq<Push>, n: nat, d: NodeId)
    requires AllWellFormed(pushes) && n < |pushes|
  {
    && pushes[n].Push? && d in Targets(pushes[n].listed, pushes[n].earlier, pushes[n].own)
    && OutcomeFor(pushes[n], ReachedAfter(pushes[..n]))(d).Newer?
  }

  /** Whether an answer leaves open whether the directory takes the policy. */
  predicate Undecided(answer: Answer) {
    answer.Busy? || answer.NoAnswer?
  }

  lemma {:induction false} AskedUntilDecided(
    policy: SignedPolicyHead, patient: set<NodeId>, rounds: seq<Answers>, d: NodeId)
    returns (r: nat)
    requires rounds != []
    ensures r < |rounds| && (forall q :: 0 <= q < r ==> Undecided(rounds[q](d)))
    ensures r > 0 ==> d in patient
    ensures Undecided(rounds[r](d)) ==> r == |rounds| - 1 || d !in patient
    ensures LastTook(policy, patient, rounds, d) == TookOf(policy, rounds[r](d))
  {
    var n := |rounds| - 1;
    if n == 0 {
      r := 0;
    } else {
      r := AskedUntilDecided(policy, patient, rounds[..n], d);
      TookSays(policy, rounds[r](d));
      if Undecided(rounds[r](d)) && d in patient {
        r := n;
      }
    }
  }

  /** Whether command `n` asks a busy or unreached `d` again: all it lists, or those of them that took a publish. */
  ghost predicate AsksAgain(pushes: seq<Push>, n: nat, d: NodeId)
    requires AllWellFormed(pushes) && n < |pushes| && pushes[n].Push?
  {
    d in pushes[n].listed && (pushes[n].retryEvery || exists i :: 0 <= i < n && TookOne(pushes, i, d))
  }

  /**
    Which answer counts.  A command asks every other node that its head lists, or that the one before did.
    The answer that counts is the first that decides, asked for again only of those it is worth asking; and
    it makes the directory one that took the policy, that holds a newer or a different one, or that missed it.
   */
  lemma AnswerThatCounts(pushes: seq<Push>, n: nat, d: NodeId) returns (r: nat)
    requires AllWellFormed(pushes) && n < |pushes| && pushes[n].Push?
    requires d != pushes[n].own && (d in pushes[n].listed || d in pushes[n].earlier)
    ensures r < |pushes[n].rounds| && (forall q :: 0 <= q < r ==> Undecided(pushes[n].rounds[q](d)))
    ensures r > 0 ==> AsksAgain(pushes, n, d)
    ensures Undecided(pushes[n].rounds[r](d)) ==> r == |pushes[n].rounds| - 1 || !AsksAgain(pushes, n, d)
    ensures var (head, answer) := (pushes[n].policy, pushes[n].rounds[r](d));
      && (TookOne(pushes, n, d) <==> answer == Published(head.head.version, HeadHash(head)))
      && (AnsweredNewer(pushes, n, d) <==>
            answer.Published? && (answer.version > head.head.version
                                  || (answer.version == head.head.version && answer.head != HeadHash(head))))
      && (ListedMiss(pushes, n, d) <==>
            d in pushes[n].listed && (answer.Published? ==> answer.version < head.head.version))
  {
    assert pushes[n] in pushes;
    var reached := ReachedAfter(pushes[..n]);
    ReachedIsEverTook(pushes[..n], d);
    forall i | 0 <= i < n ensures TookOne(pushes[..n], i, d) <==> TookOne(pushes, i, d) {
      assert pushes[..n][..i] == pushes[..i];
    }
    assert d in Patient(pushes[n], reached) <==> AsksAgain(pushes, n, d);
    r := AskedUntilDecided(pushes[n].policy, Patient(pushes[n], reached), pushes[n].rounds, d);
    TookSays(pushes[n].policy, pushes[n].rounds[r](d));
  }

  /** The admin's own node, and any that neither head lists, is not asked. */
  lemma OthersAreNotAsked(pushes: seq<Push>, n: nat, d: NodeId)
    requires AllWellFormed(pushes) && n < |pushes| && pushes[n].Push?
    requires d == pushes[n].own || (d !in pushes[n].listed && d !in pushes[n].earlier)
    ensures !TookOne(pushes, n, d) && !AnsweredNewer(pushes, n, d) && !ListedMiss(pushes, n, d)
  {
  }

  ghost function FailureOf(pushes: seq<Push>, n: nat): Option<Failure>
    requires AllWellFormed(pushes) && n < |pushes|
  {
    assert pushes[n] in pushes;
    var reached := ReachedAfter(pushes[..n]);
    Settled(reached, ResultOf(pushes[n], reached)).1
  }

  /**
    A command fails exactly when its publish erred, some directory holds a newer or different policy, or a
    directory its head lists that took an earlier publish missed this one.
   */
  lemma FailsExactlyWhen(pushes: seq<Push>, n: nat)
    requires AllWellFormed(pushes) && n < |pushes|
    ensures FailureOf(pushes, n).Some? <==>
      || pushes[n].Stopped?
      || (exists d :: AnsweredNewer(pushes, n, d))
      || (exists d, i :: 0 <= i < n && ListedMiss(pushes, n, d) && TookOne(pushes, i, d))
    ensures FailureOf(pushes, n) == Some(NotPublished) <==> pushes[n].Stopped?
    ensures FailureOf(pushes, n) == Some(StaleHere) <==> exists d :: AnsweredNewer(pushes, n, d)
    ensures FailureOf(pushes, n) == Some(ReachedNone) ==> forall d :: !TookOne(pushes, n, d)
    ensures FailureOf(pushes, n) == Some(RunningMissed) ==> exists d :: TookOne(pushes, n, d)
  {
    if pushes[n].Push? {
      var reached := ReachedAfter(pushes[..n]);
      assert pushes[n] in pushes;
      var report := ResultOf(pushes[n], reached).value;
      var running := MissedRunning(report, reached);
      NewerNamed(pushes, n, report);
      DeliveredNamed(pushes, n, report);
      forall d ensures d in running <==> ListedMiss(pushes, n, d) && exists i :: 0 <= i < n && TookOne(pushes, i, d)
      {
        RunningNamed(pushes, n, d);
      }
      assert (exists d :: d in running) <==> running != {};
    }
  }

  lemma NewerNamed(pushes: seq<Push>, n: nat, report: Report)
    requires AllWellFormed(pushes) && n < |pushes| && pushes[n].Push?
    requires pushes[n] in pushes && ResultOf(pushes[n], ReachedAfter(pushes[..n])) == Some(report)
    ensures report.newer != map[] <==> exists d :: AnsweredNewer(pushes, n, d)
  {
    if report.newer != map[] {
      var d :| d in report.newer;
      assert AnsweredNewer(pushes, n, d);
    }
    if d :| AnsweredNewer(pushes, n, d) {
      assert d in report.newer;
    }
  }

  lemma DeliveredNamed(pushes: seq<Push>, n: nat, report: Report)
    requires AllWellFormed(pushes) && n < |pushes| && pushes[n].Push?
    requires pushes[n] in pushes && ResultOf(pushes[n], ReachedAfter(pushes[..n])) == Some(report)
    ensures report.delivered != {} <==> exists d :: TookOne(pushes, n, d)
  {
    if report.delivered != {} {
      var d :| d in report.delivered;
      assert TookOne(pushes, n, d);
    }
    if d :| TookOne(pushes, n, d) {
      assert d in report.delivered;
    }
  }

  lemma RunningNamed(pushes: seq<Push>, n: nat, d: NodeId)
    requires AllWellFormed(pushes) && n < |pushes| && pushes[n].Push? && pushes[n] in pushes
    ensures d in MissedRunning(ResultOf(pushes[n], ReachedAfter(pushes[..n])).value, ReachedAfter(pushes[..n]))
            <==> ListedMiss(pushes, n, d) && exists i :: 0 <= i < n && TookOne(pushes, i, d)
  {
    ReachedIsEverTook(pushes[..n], d);
    forall i | 0 <= i < n ensures TookOne(pushes[..n], i, d) <==> TookOne(pushes, i, d) {
      assert pushes[..n][..i] == pushes[..i];
    }
  }
}
