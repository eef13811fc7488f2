/** What the strike counter counts: pruned as often as may be, an attack is a strike exactly when
    it is a cooldown later than the strike before it. */
module EscalationCounts {
  import opened Wrappers
  import opened Timestamps
  import opened Addresses
  import opened Escalation

  // ----- Any run -----

  /** A step leaves as many strikes as it should, exactly unless it prunes more than 1000. */
  lemma StepCountsIff(t: Trace, step: Step, policy: Policy)
    requires ValidPolicy(policy) && Consistent(t, policy) && (t.state.Some? ==> t.state.value.strikes == |t.times|)
    ensures var n := Next(t, step, policy);
      n.state.Some? ==> (n.state.value.strikes == |n.times| <==> !(step.Purge? && |t.times| > 1000))
  {
    if step.Purge? && t.state.Some? {
      PruneKeepsCount(step.ip, t.state.value, step.active, step.now, policy);
    }
  }

  /** In any run the strikes are all those that were counted since the window began, as long as
      no more than 1000 are pruned. */
  lemma {:induction false} StrikesAreAllCounted(steps: seq<Step>, policy: Policy)
    requires ValidPolicy(policy)
    requires forall k :: 0 <= k < |steps| && steps[k].Purge? ==> |Run(steps[..k], policy).times| <= 1000
    ensures var t := Run(steps, policy); t.state.Some? ==> t.state.value.strikes == |t.times|
  {
    hide Next, Consistent;
    if steps != [] {
      var n := |steps| - 1;
      var init := steps[..n];
      forall k | 0 <= k < n && init[k].Purge?
        ensures |Run(init[..k], policy).times| <= 1000
      {
        assert init[..k] == steps[..k];
      }
      StrikesAreAllCounted(init, policy);
      RunsStayConsistent(init, policy);
      StepCountsIff(Run(init, policy), steps[n], policy);
    }
  }

  /** An attack is counted with the strikes before it exactly while its rate limit is in force and
      its window not over; otherwise a window opens at the attack, with that strike alone. */
  lemma NewWindowIff(state: State, r: RateLimit, time: int, policy: Policy)
    ensures var v := Register(Some(state), r, time, policy);
      v.state.rateLimitId == r.id &&
      v.state.strikes == (if StillActive(state, Some(r), time, policy) then state.strikes else 0) + (if v.counted then 1 else 0) &&
      (if StillActive(state, Some(r), time, policy) then v.state.windowStartedAt == state.windowStartedAt
       else v.state.windowStartedAt == At(time) && (v.counted <==> time >= policy.cooldownMs))
  {}

  /** In a window that goes on an attack is a strike a cooldown after the last one, or after the
      epoch while there is none; the response counts only where the last strike cannot be read. */
  lemma CountedIff(state: State, r: RateLimit, time: int, policy: Policy)
    requires StillActive(state, Some(r), time, policy)
    ensures Register(Some(state), r, time, policy).counted <==>
      match state.lastStrikeAt
      case At(last) => time >= last + policy.cooldownMs
      case Null => time >= policy.cooldownMs
      case Unreadable =>
        match state.lastResponseAt
        case At(response) => time >= response + policy.cooldownMs
        case Null => time >= policy.cooldownMs
        case Unreadable => true
  {}

  // ----- Attacks under one restriction -----

  function Continued(t: Trace, steps: seq<Step>, policy: Policy): Trace {
    if steps == [] then t
    else Next(Continued(t, steps[..|steps| - 1], policy), steps[|steps| - 1], policy)
  }

  /** Attacks under the restriction and prunings while it is active, all before its window ends. */
  predicate UnderLimit(steps: seq<Step>, r: RateLimit, policy: Policy) {
    forall k :: 0 <= k < |steps| ==>
      match steps[k]
      case Attack(limit, time) => limit == r && time <= r.createdAt + policy.windowMs
      case Purge(_, active, now) => active == Some(r) && now <= r.createdAt + policy.windowMs
      case _ => false
  }

  function AttackTimes(steps: seq<Step>): seq<int> {
    if steps == [] then []
    else
      var last := steps[|steps| - 1];
      AttackTimes(steps[..|steps| - 1]) + if last.Attack? then [last.time] else []
  }

  /** Of the given times those a cooldown later than the one taken before, or than the epoch. */
  function CooldownApart(times: seq<int>, cooldown: int): seq<int> {
    if times == [] then []
    else
      var taken, time := CooldownApart(times[..|times| - 1], cooldown), times[|times| - 1];
      if time - (if taken == [] then 0 else taken[|taken| - 1]) >= cooldown then taken + [time] else taken
  }

  /** The counter of the restriction with these strikes. */
  predicate Counts(t: Trace, r: RateLimit, strikes: seq<int>) {
    t.times == strikes && t.state.Some? && t.state.value.rateLimitId == r.id && t.state.value.strikes == |strikes| &&
    ParseTimestamp(t.state.value.windowStartedAt) == Some(r.createdAt) &&
    t.state.value.lastStrikeAt != Unreadable &&
    ParseTimestamp(t.state.value.lastStrikeAt) == Some(if strikes == [] then 0 else strikes[|strikes| - 1])
  }

  lemma AttackCounts(t: Trace, r: RateLimit, strikes: seq<int>, time: int, policy: Policy)
    requires Counts(t, r, strikes) && time <= r.createdAt + policy.windowMs
    ensures var n := Next(t, Attack(r, time), policy);
      var counted := time - (if strikes == [] then 0 else strikes[|strikes| - 1]) >= policy.cooldownMs;
      Counts(n, r, if counted then strikes + [time] else strikes) &&
      (n.escalated <==> counted && |strikes| + 1 >= policy.hits)
  {}

  lemma PurgeCounts(t: Trace, r: RateLimit, strikes: seq<int>, ip: Address, now: int, policy: Policy)
    requires Counts(t, r, strikes) && |strikes| <= 1000 && now <= r.createdAt + policy.windowMs
    ensures Counts(Next(t, Purge(ip, Some(r), now), policy), r, strikes)
  {
    PruneKeepsCount(ip, t.state.value, Some(r), now, policy);
  }

  /** The strikes there should be after the steps. */
  function Strikes(steps: seq<Step>, policy: Policy): seq<int> {
    CooldownApart(AttackTimes(steps), policy.cooldownMs)
  }

  lemma StrikesStep(steps: seq<Step>, policy: Policy)
    requires steps != []
    ensures var before, last := Strikes(steps[..|steps| - 1], policy), steps[|steps| - 1];
      Strikes(steps, policy) ==
        if last.Attack? && last.time - (if before == [] then 0 else before[|before| - 1]) >= policy.cooldownMs
        then before + [last.time] else before
  {
    var init := AttackTimes(steps[..|steps| - 1]);
    if steps[|steps| - 1].Attack? {
      assert AttackTimes(steps)[..|init|] == init;
    } else {
      assert AttackTimes(steps) == init;
    }
  }

  /** No pruning finds more than 1000 strikes. */
  predicate FewPruned(steps: seq<Step>, policy: Policy) {
    forall k :: 0 <= k < |steps| && steps[k].Purge? ==> |Strikes(steps[..k], policy)| <= 1000
  }

  lemma InitHolds(steps: seq<Step>, r: RateLimit, policy: Policy)
    requires steps != [] && UnderLimit(steps, r, policy) && FewPruned(steps, policy)
    ensures UnderLimit(steps[..|steps| - 1], r, policy) && FewPruned(steps[..|steps| - 1], policy)
  {
    var init := steps[..|steps| - 1];
    forall k | 0 <= k < |init| && init[k].Purge?
      ensures |Strikes(init[..k], policy)| <= 1000
    {
      assert init[..k] == steps[..k];
    }
  }

  lemma LastStepCounts(t: Trace, r: RateLimit, steps: seq<Step>, policy: Policy)
    requires steps != [] && UnderLimit(steps, r, policy) && FewPruned(steps, policy)
    requires Counts(t, r, Strikes(steps[..|steps| - 1], policy))
    ensures var n := Next(t, steps[|steps| - 1], policy);
      Counts(n, r, Strikes(steps, policy)) && (steps[|steps| - 1].Attack? ==> (n.escalated <==> Escalating(steps, policy)))
  {
    hide Counts, Next, Strikes;
    StrikesStep(steps, policy);
    var last, strikes := steps[|steps| - 1], Strikes(steps[..|steps| - 1], policy);
    if last.Attack? {
      AttackCounts(t, r, strikes, last.time, policy);
    } else {
      PurgeCounts(t, r, strikes, last.ip, last.now, policy);
    }
  }

  /** The last step adds a strike, and with it there are enough. */
  predicate Escalating(steps: seq<Step>, policy: Policy)
    requires steps != []
  {
    |Strikes(steps, policy)| > |Strikes(steps[..|steps| - 1], policy)| && |Strikes(steps, policy)| >= policy.hits
  }

  /** After a restriction, however often the counters are pruned between, the strikes are exactly
      the attacks a cooldown apart; an attack escalates exactly when it is one of them and they
      have reached the threshold. */
  lemma {:induction false} StrikesAreCooldownApart(before: Trace, r: RateLimit, steps: seq<Step>, policy: Policy)
    requires UnderLimit(steps, r, policy) && FewPruned(steps, policy)
    ensures var t := Continued(Next(before, Restrict(r), policy), steps, policy);
      Counts(t, r, Strikes(steps, policy)) &&
      (steps != [] && steps[|steps| - 1].Attack? ==> (t.escalated <==> Escalating(steps, policy)))
  {
    hide Counts, Next, Strikes, UnderLimit, FewPruned, Escalating;
    if steps == [] {
      NoStrikes(before, r, policy);
    } else {
      InitHolds(steps, r, policy);
      StrikesAreCooldownApart(before, r, steps[..|steps| - 1], policy);
      LastStepCounts(Continued(Next(before, Restrict(r), policy), steps[..|steps| - 1], policy), r, steps, policy);
    }
  }

  lemma NoStrikes(before: Trace, r: RateLimit, policy: Policy)
    ensures Counts(Next(before, Restrict(r), policy), r, Strikes([], policy))
  {}
}
