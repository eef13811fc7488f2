/** Whole runs of the provisioning queue: domains stay exclusive, and claims of one job are a
    lease apart.  The clock of each operation is arbitrary; it may even run backwards. */
module ProvisioningRuns {
  import opened Wrappers
  import opened Texts
  import opened Provisioning

  datatype Op =
    | Enqueue(id: JobId, node: string, input: Input)
    | Claim(node: string, listing: seq<JobId>)
    | Finish(node: string, id: JobId, outcome: Outcome)

  datatype Step = Step(op: Op, now: int)

  /** The job a step claims, if it claims one. */
  function ClaimedBy(jobs: Jobs, step: Step): Option<JobId> {
    if !step.op.Claim? || NormalizeNodeId(step.op.node).None? then None
    else Pick(jobs, step.op.listing, NormalizeNodeId(step.op.node).value, step.now)
  }

  ghost predicate Accepts(jobs: Jobs, op: Op)
    requires op.Enqueue?
  {
    NormalizeNodeId(op.node).Some? && StoredInput(op.input).Some? && (op.input.ProxyHost? ==> !Taken(jobs, op.input.domainNames))
  }

  predicate Settles(jobs: Jobs, op: Op)
    requires op.Finish?
  {
    op.id in jobs && Some(jobs[op.id].nodeId) == NormalizeNodeId(op.node) && Active(jobs[op.id])
  }

  /** What the operations of the queue do to the jobs, as their contracts say. */
  ghost function After(jobs: Jobs, step: Step): Jobs {
    match step.op
    case Enqueue(id, node, input) =>
      if Accepts(jobs, step.op) then jobs[id := NewJob(id, NormalizeNodeId(node).value, StoredInput(input).value, step.now)] else jobs
    case Claim(_, _) =>
      var pick := ClaimedBy(jobs, step);
      if pick.Some? && pick.value in jobs then jobs[pick.value := Claimed(jobs[pick.value], step.now)] else jobs
    case Finish(_, id, outcome) =>
      if Settles(jobs, step.op) then jobs[id := Finished(jobs[id], outcome, step.now)] else jobs
  }

  /** New jobs get ids never used before, and claims read a listing of the directory. */
  ghost predicate Proper(jobs: Jobs, step: Step) {
    (step.op.Enqueue? ==> step.op.id !in jobs) && (step.op.Claim? ==> IsListing(step.op.listing, jobs))
  }

  ghost function Run(steps: seq<Step>): Jobs {
    if steps == [] then map[] else After(Run(steps[..|steps| - 1]), steps[|steps| - 1])
  }

  ghost predicate ProperRun(steps: seq<Step>) {
    forall k :: 0 <= k < |steps| ==> Proper(Run(steps[..k]), steps[k])
  }

  lemma InitIsProper(steps: seq<Step>)
    requires ProperRun(steps) && steps != []
    ensures ProperRun(steps[..|steps| - 1])
    ensures Proper(Run(steps[..|steps| - 1]), steps[|steps| - 1])
  {
    var init := steps[..|steps| - 1];
    forall k | 0 <= k < |init|
      ensures Proper(Run(init[..k]), init[k])
    {
      assert init[..k] == steps[..k];
    }
  }

  /** Running the steps on a queue object does what `After` says. */
  method Perform(queue: Queue, step: Step, listing: seq<JobId>)
    requires Proper(queue.jobs, step) && IsListing(listing, queue.jobs)
    modifies queue
    ensures queue.jobs == After(old(queue.jobs), step)
  {
    match step.op
    case Enqueue(id, node, input) =>
      if input.ProxyHost? {
        var _ := queue.EnqueueProxyHost(id, node, input.domainNames, listing, step.now);
      } else {
        var _ := queue.EnqueueAction(id, node, input, step.now);
      }
    case Claim(node, order) =>
      if NormalizeNodeId(node).Some? {
        PickIsOldest(queue.jobs, order, NormalizeNodeId(node).value, step.now);
      }
      var _ := queue.ClaimNext(node, order, step.now);
    case Finish(node, id, outcome) =>
      var _ := queue.Complete(node, id, outcome, step.now);
  }

  // ----- Domains -----

  lemma OnlyAcceptedTakes(jobs: Jobs, step: Step)
    requires Proper(jobs, step)
    ensures forall id :: id in jobs ==> id in After(jobs, step) && DomainsHeld(After(jobs, step)[id]) <= DomainsHeld(jobs[id])
    ensures forall id :: id in After(jobs, step) && id !in jobs ==>
      step.op.Enqueue? && Accepts(jobs, step.op) && id == step.op.id &&
      DomainsHeld(After(jobs, step)[id]) <= (if step.op.input.ProxyHost? then Wanted(step.op.input.domainNames) else {})
  {
    hide Wanted, Taken, Pick, NormalizeNodeId, StoredInput;
    if step.op.Claim? && ClaimedBy(jobs, step).Some? && ClaimedBy(jobs, step).value in jobs {
      var id := ClaimedBy(jobs, step).value;
      ClaimIsOldest(jobs, step);
      assert Active(jobs[id]);
    }
  }

  lemma ClaimIsOldest(jobs: Jobs, step: Step)
    requires Proper(jobs, step) && ClaimedBy(jobs, step).Some?
    ensures ClaimedBy(jobs, step).value in jobs
    ensures Eligible(jobs[ClaimedBy(jobs, step).value], NormalizeNodeId(step.op.node).value, step.now)
  {
    PickIsOldest(jobs, step.op.listing, NormalizeNodeId(step.op.node).value, step.now);
  }

  lemma StepKeepsExclusive(jobs: Jobs, step: Step)
    requires Proper(jobs, step) && Exclusive(jobs)
    ensures Exclusive(After(jobs, step))
  {
    OnlyAcceptedTakes(jobs, step);
    hide After, DomainsHeld, Wanted;
    var after := After(jobs, step);
    forall a, b | a in after && b in after && a != b
      ensures DomainsHeld(after[a]) !! DomainsHeld(after[b])
    {
      if a in jobs && b in jobs {
        assert DomainsHeld(jobs[a]) !! DomainsHeld(jobs[b]);
      } else if a in jobs && step.op.input.ProxyHost? {
        assert DomainsHeld(jobs[a]) !! Wanted(step.op.input.domainNames);
      } else if b in jobs && step.op.input.ProxyHost? {
        assert DomainsHeld(jobs[b]) !! Wanted(step.op.input.domainNames);
      }
    }
  }

  /** However enqueues, claims, repeated claims and completions are interleaved, no two queued
      or running jobs that create a proxy host share a name. */
  lemma {:induction false} DomainsStayExclusive(steps: seq<Step>)
    requires ProperRun(steps)
    ensures Exclusive(Run(steps))
  {
    if steps != [] {
      InitIsProper(steps);
      DomainsStayExclusive(steps[..|steps| - 1]);
      StepKeepsExclusive(Run(steps[..|steps| - 1]), steps[|steps| - 1]);
    }
  }

  // ----- Leases -----

  /** A lease, in milliseconds. */
  const TWO_MINUTES: int := 120_000

  /** The times at which a run claims a job. */
  ghost function ClaimTimes(steps: seq<Step>, id: JobId): seq<int> {
    if steps == [] then []
    else
      var n := |steps| - 1;
      ClaimTimes(steps[..n], id) + (if ClaimedBy(Run(steps[..n]), steps[n]) == Some(id) then [steps[n].now] else [])
  }

  ghost predicate Spaced(times: seq<int>) {
    forall k :: 0 <= k < |times| - 1 ==> times[k + 1] - times[k] >= TWO_MINUTES
  }

  /** What a job record says about the claims made of it. */
  ghost predicate Records(job: Job, times: seq<int>) {
    job.attempts == |times| && Spaced(times) &&
    job.startedAt == (if times == [] then None else Some(times[0])) &&
    (job.status.Queued? ==> times == []) &&
    (job.status.Running? ==>
      times != [] && job.updatedAt == times[|times| - 1] && job.leaseUntil == Some(times[|times| - 1] + TWO_MINUTES)) &&
    (if Active(job) then job.input.Some? && job.finishedAt.None? else job.input.None? && job.leaseUntil.None? && job.finishedAt.Some?)
  }

  ghost predicate RecordsAt(jobs: Jobs, id: JobId, times: seq<int>) {
    if id in jobs then Records(jobs[id], times) else times == []
  }

  lemma ClaimRecords(job: Job, times: seq<int>, nodeId: string, now: int)
    requires Records(job, times) && Eligible(job, nodeId, now)
    ensures Records(Claimed(job, now), times + [now])
  {
    var after := times + [now];
    forall k | 0 <= k < |after| - 1
      ensures after[k + 1] - after[k] >= TWO_MINUTES
    {
      assert k < |times| - 1 ==> times[k + 1] - times[k] >= TWO_MINUTES;
    }
  }

  lemma StepRecords(jobs: Jobs, step: Step, id: JobId, times: seq<int>)
    requires Proper(jobs, step) && RecordsAt(jobs, id, times)
    ensures RecordsAt(After(jobs, step), id, times + if ClaimedBy(jobs, step) == Some(id) then [step.now] else [])
  {
    hide Taken, Pick, NormalizeNodeId, StoredInput, Spaced;
    if ClaimedBy(jobs, step) == Some(id) {
      ClaimIsOldest(jobs, step);
      ClaimRecords(jobs[id], times, NormalizeNodeId(step.op.node).value, step.now);
    } else {
      assert times + [] == times;
      assert Spaced([]) by { Empty(); }
    }
  }

  lemma Empty()
    ensures Spaced([])
  {}

  /** In every run the record of a job agrees with its claims: as many attempts as claims, the
      start at the first, the lease from the last, and the claims at least a lease apart. */
  lemma {:induction false} RunRecords(steps: seq<Step>, id: JobId)
    requires ProperRun(steps)
    ensures RecordsAt(Run(steps), id, ClaimTimes(steps, id))
  {
    if steps != [] {
      var n := |steps| - 1;
      InitIsProper(steps);
      RunRecords(steps[..n], id);
      StepRecords(Run(steps[..n]), steps[n], id, ClaimTimes(steps[..n], id));
    }
  }

  /** Two claims of one job lie at least as many leases apart as there are claims between. */
  lemma {:induction false} ClaimsAreLeasesApart(steps: seq<Step>, id: JobId, i: nat, j: nat)
    requires ProperRun(steps) && i <= j < |ClaimTimes(steps, id)|
    ensures ClaimTimes(steps, id)[j] >= ClaimTimes(steps, id)[i] + (j - i) * TWO_MINUTES
    decreases j
  {
    hide Run, ClaimTimes, ProperRun;
    RunRecords(steps, id);
    var times := ClaimTimes(steps, id);
    assert id in Run(steps) && Spaced(times);
    if i < j {
      ClaimsAreLeasesApart(steps, id, i, j - 1);
      assert times[j - 1 + 1] - times[j - 1] >= TWO_MINUTES;
    }
  }

  /** A job that made k attempts was last claimed no earlier than k - 1 leases after its start. */
  lemma AttemptsTakeTime(steps: seq<Step>, id: JobId)
    requires ProperRun(steps) && id in Run(steps) && Run(steps)[id].status.Running?
    ensures var job := Run(steps)[id];
      job.startedAt.Some? && job.leaseUntil.Some? && job.leaseUntil.value >= job.startedAt.value + job.attempts * TWO_MINUTES
  {
    hide Run, ClaimTimes, ProperRun, Spaced;
    RunRecords(steps, id);
    var n := |ClaimTimes(steps, id)| - 1;
    ClaimsAreLeasesApart(steps, id, 0, n);
    assert (n - 0) * TWO_MINUTES + TWO_MINUTES == (n + 1) * TWO_MINUTES;
  }

  // ----- Settled jobs -----

  lemma StepKeepsSettled(jobs: Jobs, step: Step, id: JobId)
    requires Proper(jobs, step) && id in jobs
    ensures id in After(jobs, step)
    ensures var before, after := jobs[id], After(jobs, step)[id];
      after.kind == before.kind && after.nodeId == before.nodeId && after.createdAt == before.createdAt &&
      (!Active(before) ==> after == before && ClaimedBy(jobs, step) != Some(id)) &&
      (Active(before) && !Active(after) ==> step.op.Finish? && step.op.id == id && after.input.None?) &&
      (Active(after) ==> after.input == before.input)
  {
    hide Taken, Pick, NormalizeNodeId, StoredInput;
    if ClaimedBy(jobs, step).Some? {
      ClaimIsOldest(jobs, step);
    }
  }

  lemma SettledIsRecorded(steps: seq<Step>, id: JobId)
    requires ProperRun(steps) && id in Run(steps) && !Active(Run(steps)[id])
    ensures Run(steps)[id].input.None?
  {
    hide Run, ProperRun;
    RunRecords(steps, id);
  }

  /** A completed or failed job is never changed or claimed again, whatever follows. */
  lemma {:induction false} SettledForGood(steps: seq<Step>, k: nat, id: JobId)
    requires ProperRun(steps) && k <= |steps|
    requires id in Run(steps[..k]) && !Active(Run(steps[..k])[id])
    ensures id in Run(steps) && Run(steps)[id] == Run(steps[..k])[id] && Run(steps)[id].input.None?
    ensures ClaimTimes(steps, id) == ClaimTimes(steps[..k], id)
  {
    hide After, ProperRun, Proper, ClaimedBy, Records;
    if k == |steps| {
      assert steps[..k] == steps;
      SettledIsRecorded(steps, id);
    } else {
      var n := |steps| - 1;
      InitIsProper(steps);
      assert steps[..n][..k] == steps[..k];
      SettledForGood(steps[..n], k, id);
      StepKeepsSettled(Run(steps[..n]), steps[n], id);
      assert ClaimTimes(steps, id) == ClaimTimes(steps[..n], id) + [];
    }
  }

  // ----- What was reported -----

  /** The step with the given index settles the job: its worker reports on it while it is active. */
  ghost predicate SettledAt(steps: seq<Step>, id: JobId, k: nat)
    requires k < |steps|
  {
    steps[k].op.Finish? && steps[k].op.id == id && Settles(Run(steps[..k]), steps[k].op)
  }

  /** The job tells what was reported, and when.  The error of a failed job is empty exactly when
      the reported one is not but holds only white space. */
  ghost predicate Tells(job: Job, outcome: Outcome, now: int) {
    (job.status == Completed <==> outcome.success) && (job.status == Failed <==> !outcome.success) &&
    job.result == (if outcome.success then outcome.result else None) && (job.error.Some? <==> !outcome.success) &&
    (job.error.Some? ==>
      |job.error.value| <= 2000 && (job.error.value == "" <==> outcome.error != "" && forall c <- outcome.error :: IsSpace(c)) &&
      (outcome.error == "" ==> job.error.value == "Provisioning failed") &&
      (outcome.error != "" ==> exists i, j :: 0 <= i <= j <= |outcome.error| && job.error.value == outcome.error[i..j])) &&
    job.input.None? && job.leaseUntil.None? && job.finishedAt == Some(now) && job.updatedAt == now
  }

  lemma FinishedTells(job: Job, outcome: Outcome, now: int)
    ensures Tells(Finished(job, outcome, now), outcome, now)
  {
    hide Bounded, IsSpace;
    BoundedIs(outcome.error, 2000);
    BoundedIs("Provisioning failed", 2000);
    Unspaced();
  }

  lemma Unspaced()
    ensures Bounded("Provisioning failed", 2000) == "Provisioning failed"
  {}

  /** In every run a job is completed or failed exactly when some step settled it, and then it
      tells what that step reported. */
  lemma {:induction false} JobsTellOutcomes(steps: seq<Step>, id: JobId)
    requires ProperRun(steps) && id in Run(steps)
    ensures !Active(Run(steps)[id]) <==> exists k :: 0 <= k < |steps| && SettledAt(steps, id, k)
    ensures forall k :: 0 <= k < |steps| && SettledAt(steps, id, k) ==> Tells(Run(steps)[id], steps[k].op.outcome, steps[k].now)
  {
    hide After, ProperRun, Proper, Tells, Settles;
    if steps != [] {
      var n := |steps| - 1;
      var init := steps[..n];
      InitIsProper(steps);
      forall k | 0 <= k < n
        ensures SettledAt(steps, id, k) <==> SettledAt(init, id, k)
      {
        assert init[..k] == steps[..k];
      }
      LastStep(Run(init), steps[n], id);
      if id in Run(init) {
        JobsTellOutcomes(init, id);
        if !Active(Run(init)[id]) {
          var k :| 0 <= k < n && SettledAt(init, id, k);
          assert SettledAt(steps, id, k);
        }
        assert SettledAt(steps, id, n) <==> Active(Run(init)[id]) && !Active(Run(steps)[id]);
      } else {
        NeverSettled(init, id);
      }
    }
  }

  lemma LastStep(jobs: Jobs, step: Step, id: JobId)
    requires Proper(jobs, step) && id in After(jobs, step)
    ensures var settles := step.op.Finish? && step.op.id == id && Settles(jobs, step.op);
      if id !in jobs then Active(After(jobs, step)[id]) && !settles
      else
        (Active(After(jobs, step)[id]) <==> Active(jobs[id]) && !settles) && (settles ==> Active(jobs[id])) &&
        (!Active(jobs[id]) ==> After(jobs, step)[id] == jobs[id]) &&
        (settles ==> Tells(After(jobs, step)[id], step.op.outcome, step.now))
  {
    hide Taken, Pick, NormalizeNodeId, StoredInput, Tells;
    if id in jobs {
      StepKeepsSettled(jobs, step, id);
    }
    if step.op.Finish? && id in jobs {
      FinishedTells(jobs[id], step.op.outcome, step.now);
    }
    if step.op.Claim? && ClaimedBy(jobs, step).Some? {
      ClaimIsOldest(jobs, step);
    }
  }

  lemma {:induction false} NeverSettled(steps: seq<Step>, id: JobId)
    requires ProperRun(steps) && id !in Run(steps)
    ensures forall k :: 0 <= k < |steps| ==> !SettledAt(steps, id, k)
  {
    hide After, ProperRun, Proper;
    if steps != [] {
      var n := |steps| - 1;
      InitIsProper(steps);
      JobsStay(Run(steps[..n]), steps[n]);
      NeverSettled(steps[..n], id);
      forall k | 0 <= k < |steps|
        ensures !SettledAt(steps, id, k)
      {
        assert k < n ==> steps[..n][..k] == steps[..k] && !SettledAt(steps[..n], id, k);
      }
    }
  }

  lemma JobsStay(jobs: Jobs, step: Step)
    ensures jobs.Keys <= After(jobs, step).Keys
  {}
}
