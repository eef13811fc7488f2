/** Whole runs of the challenge store: however answers, new challenges, expiry, removals and
    failed writes are interleaved, 25 wrong answers to a challenge are recorded at most. */
module ChallengeRuns {
  import opened Wrappers
  import opened Addresses
  import opened Challenges

  datatype Op =
    | Issue(items: seq<Item>, tickets: seq<Ticket>)
    | Answer(ip: Address, id: int, counter: Option<int>)
    | Remove(byId: Option<int>, byIp: Option<Address>)

  /** One operation at a time, and whether its purge and its own commit go through. */
  datatype Step = Step(op: Op, now: int, purges: bool, works: bool)

  function Purged(before: seq<Challenge>, step: Step): Option<seq<Challenge>> {
    if step.purges || Active(before, step.now) == before then Some(Active(before, step.now)) else None
  }

  function VerdictOf(before: seq<Challenge>, step: Step, digest: Digest): Option<Verdict> {
    if step.op.Answer? && Purged(before, step).Some?
    then Some(Judge(Find(Purged(before, step).value, step.op.ip, step.op.id), step.op.counter, digest)) else None
  }

  predicate IsWrong(before: seq<Challenge>, step: Step, digest: Digest, id: int) {
    step.op.Answer? && step.op.id == id && VerdictOf(before, step, digest) == Some(Wrong)
  }

  /** A wrong answer whose attempt could be stored. */
  predicate WrongFor(before: seq<Challenge>, step: Step, digest: Digest, id: int) {
    IsWrong(before, step, digest, id) && step.works
  }

  /** The challenges after a step, as the operations' contracts say. */
  ghost predicate Next(before: seq<Challenge>, after: seq<Challenge>, step: Step, digest: Digest) {
    Good(after) &&
    match Purged(before, step)
    case None => after == before
    case Some(active) =>
      match step.op
      case Issue(items, tickets) =>
        after == active ||
        (|items| == |tickets| && active <= after && MadeFor(after[|active|..], items, tickets, step.now, |items|))
      case Answer(_, id, _) =>
        var verdict := VerdictOf(before, step, digest).value;
        after == if !step.works || verdict.Refused? then active
                 else if verdict.Wrong? then WithAttempt(active, id) else Without(active, id)
      case Remove(id, ip) =>
        after == if step.works then Removed(active, id, ip) else active
  }

  /** The operations of the store make such steps. */
  method Perform(store: Service, step: Step, digest: Digest)
    requires store.Valid()
    requires step.op.Issue? ==> |step.op.items| == |step.op.tickets| && Unused(store.stored, step.op.tickets, 0)
    modifies store
    ensures store.Valid() && Next(old(store.stored), store.stored, step, digest)
  {
    hide Active, MadeFor, Judge, Find, Without, WithAttempt, FindEither;
    match step.op
    case Issue(items, tickets) =>
      var _ := store.ChallengeIps(items, tickets, step.now, step.purges, step.works);
    case Answer(ip, id, counter) =>
      var _ := store.Verify(ip, id, counter, digest, step.now, step.purges, step.works);
    case Remove(id, ip) =>
      var _ := store.RemoveChallenge(id, ip, step.now, step.purges, step.works);
  }

  ghost predicate Present(challenges: seq<Challenge>, id: int) {
    exists c :: c in challenges && c.id == id
  }

  /** From an empty store on; ids of tickets are never used a second time. */
  ghost predicate IsRun(trace: seq<seq<Challenge>>, steps: seq<Step>, digest: Digest) {
    |trace| == |steps| + 1 && trace[0] == [] &&
    (forall k :: 0 <= k < |steps| ==> Next(trace[k], trace[k + 1], steps[k], digest)) &&
    forall k, j, t :: 0 <= j <= k < |steps| && steps[k].op.Issue? && 0 <= t < |steps[k].op.tickets| ==>
      !Present(trace[j], steps[k].op.tickets[t].id)
  }

  /** The wrong answers recorded by the first k steps. */
  ghost function WrongAnswers(trace: seq<seq<Challenge>>, steps: seq<Step>, digest: Digest, k: nat, id: int): nat
    requires k <= |steps| < |trace|
  {
    if k == 0 then 0
    else WrongAnswers(trace, steps, digest, k - 1, id) + if WrongFor(trace[k - 1], steps[k - 1], digest, id) then 1 else 0
  }

  /** All wrong answers, and those whose attempt could not be stored. */
  ghost function AllWrong(trace: seq<seq<Challenge>>, steps: seq<Step>, digest: Digest, k: nat, id: int): nat
    requires k <= |steps| < |trace|
  {
    if k == 0 then 0
    else AllWrong(trace, steps, digest, k - 1, id) + if IsWrong(trace[k - 1], steps[k - 1], digest, id) then 1 else 0
  }

  ghost function FailedWrites(trace: seq<seq<Challenge>>, steps: seq<Step>, digest: Digest, k: nat, id: int): nat
    requires k <= |steps| < |trace|
  {
    if k == 0 then 0
    else
      FailedWrites(trace, steps, digest, k - 1, id) +
      if IsWrong(trace[k - 1], steps[k - 1], digest, id) && !steps[k - 1].works then 1 else 0
  }

  // ----- One step -----

  ghost predicate HasTicket(op: Op, id: int) {
    op.Issue? && exists t :: 0 <= t < |op.tickets| && op.tickets[t].id == id
  }

  lemma IssuedHasTicket(active: seq<Challenge>, after: seq<Challenge>, step: Step, c: Challenge)
    requires step.op.Issue? && |step.op.items| == |step.op.tickets| && active <= after && c in after && c !in active
    requires MadeFor(after[|active|..], step.op.items, step.op.tickets, step.now, |step.op.items|)
    ensures c.attempts == 0 && HasTicket(step.op, c.id)
  {
    assert forall i :: 0 <= i < |active| ==> after[i] in active;
    var k :| 0 <= k < |after| && after[k] == c;
    MadeHasTicket(after[|active|..], step.op.items, step.op.tickets, step.now, k - |active|);
  }

  lemma AttemptCounts(active: seq<Challenge>, id: int, c: Challenge)
    requires c in WithAttempt(active, id)
    ensures if c.id == id then c.attempts > 0 && c.(attempts := c.attempts - 1) in active else c in active
  {
    var after := WithAttempt(active, id);
    var k :| 0 <= k < |after| && after[k] == c;
    assert active[k] in active;
  }

  /** A challenge after a step was there before, with one attempt less if the step is a wrong
      answer to it, or bears the id of a ticket. */
  lemma StepChanges(before: seq<Challenge>, after: seq<Challenge>, step: Step, digest: Digest, c: Challenge)
    requires Next(before, after, step, digest) && c in after
    ensures (c in before && !WrongFor(before, step, digest, c.id)) ||
            (WrongFor(before, step, digest, c.id) && c.attempts > 0 && c.(attempts := c.attempts - 1) in before) ||
            (c.attempts == 0 && HasTicket(step.op, c.id))
  {
    hide Good, Judge, Find, MadeFor, HasTicket, WithAttempt;
    if Purged(before, step).Some? {
      var active := Purged(before, step).value;
      if step.op.Issue? && c !in active {
        IssuedHasTicket(active, after, step, c);
      } else if step.op.Answer? && VerdictOf(before, step, digest).value.Wrong? && step.works {
        AttemptCounts(active, step.op.id, c);
      }
    }
  }

  lemma MadeHasTicket(made: seq<Challenge>, items: seq<Item>, tickets: seq<Ticket>, now: int, k: nat)
    requires |items| == |tickets| && MadeFor(made, items, tickets, now, |items|) && k < |made|
    ensures made[k].attempts == 0 && exists t :: 0 <= t < |tickets| && tickets[t].id == made[k].id
  {
    assert MadeForOne(made[k], items, tickets, now, |items|);
    var j :| 0 <= j < |items| && IsFor(made[k], items, tickets, now, j);
    assert tickets[j].id == made[k].id;
  }

  /** A wrong answer is counted only while the challenge is present with attempts left. */
  lemma WrongNeedsAttempts(before: seq<Challenge>, step: Step, digest: Digest, id: int)
    requires WrongFor(before, step, digest, id)
    ensures exists c :: c in before && c.id == id && c.attempts < MAX_VERIFY_ATTEMPTS
  {
    var c := Find(Purged(before, step).value, step.op.ip, id).value;
    assert c in before;
  }

  // ----- Runs -----

  lemma {:induction false} NeverPresentNeverWrong(trace: seq<seq<Challenge>>, steps: seq<Step>, digest: Digest, k: nat, id: int)
    requires k <= |steps| < |trace|
    requires forall j :: 0 <= j < k ==> !Present(trace[j], id)
    ensures WrongAnswers(trace, steps, digest, k, id) == 0
  {
    hide WrongFor, Present;
    if k > 0 {
      NeverPresentNeverWrong(trace, steps, digest, k - 1, id);
      if WrongFor(trace[k - 1], steps[k - 1], digest, id) {
        NotWrong(trace[k - 1], steps[k - 1], digest, id);
      }
    }
  }

  lemma NotWrong(before: seq<Challenge>, step: Step, digest: Digest, id: int)
    requires WrongFor(before, step, digest, id)
    ensures Present(before, id)
  {
    hide WrongFor;
    WrongNeedsAttempts(before, step, digest, id);
  }

  ghost predicate Counted(challenges: seq<Challenge>, id: int, wrong: nat) {
    wrong <= 25 && forall c :: c in challenges && c.id == id ==> c.attempts == wrong
  }

  lemma StepCounts(before: seq<Challenge>, after: seq<Challenge>, step: Step, digest: Digest, id: int, wrong: nat)
    requires Next(before, after, step, digest) && Counted(before, id, wrong)
    requires HasTicket(step.op, id) ==> wrong == 0 && !WrongFor(before, step, digest, id)
    ensures Counted(after, id, wrong + if WrongFor(before, step, digest, id) then 1 else 0)
  {
    hide Next, WrongFor, HasTicket;
    if WrongFor(before, step, digest, id) {
      WrongNeedsAttempts(before, step, digest, id);
    }
    forall c | c in after && c.id == id
      ensures c.attempts == wrong + if WrongFor(before, step, digest, id) then 1 else 0
    {
      StepChanges(before, after, step, digest, c);
    }
  }

  /** The attempts of a challenge are the wrong answers recorded for it, and there are never more than
      the limit, also counting challenges that are gone. */
  lemma {:induction false} AttemptsAreWrongAnswers(trace: seq<seq<Challenge>>, steps: seq<Step>, digest: Digest, k: nat, id: int)
    requires IsRun(trace, steps, digest) && k <= |steps|
    ensures Counted(trace[k], id, WrongAnswers(trace, steps, digest, k, id))
  {
    hide IsRun, Next, WrongFor, HasTicket, Counted;
    StartsEmpty(trace, steps, digest, id);
    if k > 0 {
      AttemptsAreWrongAnswers(trace, steps, digest, k - 1, id);
      RunStep(trace, steps, digest, k - 1);
      if HasTicket(steps[k - 1].op, id) {
        TicketIsNew(trace, steps, digest, k - 1, id);
      }
      StepCounts(trace[k - 1], trace[k], steps[k - 1], digest, id, WrongAnswers(trace, steps, digest, k - 1, id));
    }
  }

  lemma {:induction false} WrongAnswersSplit(trace: seq<seq<Challenge>>, steps: seq<Step>, digest: Digest, k: nat, id: int)
    requires k <= |steps| < |trace|
    ensures AllWrong(trace, steps, digest, k, id) ==
      WrongAnswers(trace, steps, digest, k, id) + FailedWrites(trace, steps, digest, k, id)
  {
    hide IsWrong;
    if k > 0 {
      WrongAnswersSplit(trace, steps, digest, k - 1, id);
    }
  }

  /** How often a challenge can be answered wrongly: 25 times, and once more for every attempt
      that could not be stored; a challenge's attempts are the difference. */
  lemma WrongAnswersBounded(trace: seq<seq<Challenge>>, steps: seq<Step>, digest: Digest, k: nat, id: int)
    requires IsRun(trace, steps, digest) && k <= |steps|
    ensures AllWrong(trace, steps, digest, k, id) <= 25 + FailedWrites(trace, steps, digest, k, id)
    ensures forall c :: c in trace[k] && c.id == id ==>
      AllWrong(trace, steps, digest, k, id) - FailedWrites(trace, steps, digest, k, id) == c.attempts
  {
    hide IsRun, AllWrong, WrongAnswers, FailedWrites;
    StartsEmpty(trace, steps, digest, id);
    AttemptsAreWrongAnswers(trace, steps, digest, k, id);
    WrongAnswersSplit(trace, steps, digest, k, id);
  }

  lemma StartsEmpty(trace: seq<seq<Challenge>>, steps: seq<Step>, digest: Digest, id: int)
    requires IsRun(trace, steps, digest)
    ensures |trace| == |steps| + 1 && Counted(trace[0], id, 0)
  {}

  lemma TicketIsNew(trace: seq<seq<Challenge>>, steps: seq<Step>, digest: Digest, k: nat, id: int)
    requires IsRun(trace, steps, digest) && k < |steps| && HasTicket(steps[k].op, id)
    ensures WrongAnswers(trace, steps, digest, k + 1, id) == 0
  {
    hide Next, Present, WrongAnswers;
    var t :| 0 <= t < |steps[k].op.tickets| && steps[k].op.tickets[t].id == id;
    assert forall j :: 0 <= j <= k ==> !Present(trace[j], steps[k].op.tickets[t].id);
    NeverPresentNeverWrong(trace, steps, digest, k + 1, id);
  }

  lemma RunStep(trace: seq<seq<Challenge>>, steps: seq<Step>, digest: Digest, k: nat)
    requires IsRun(trace, steps, digest) && k < |steps|
    ensures Good(trace[k]) && Next(trace[k], trace[k + 1], steps[k], digest)
  {
    hide Present;
    if k > 0 {
      assert Next(trace[k - 1], trace[k], steps[k - 1], digest);
    }
  }
}
