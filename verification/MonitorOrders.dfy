/** The challenges and rate limits a pass starts are as the settings of one of its events order. */
module MonitorOrders {
  import opened Wrappers
  import opened Sequences
  import opened Addresses
  import opened HostPolicy
  import opened Autopilot
  import opened MonitorPass
  import opened MonitorProofs
  import opened MonitorResults

  /** The event orders a challenge like this one, or a request for it. */
  ghost predicate OrdersChallenge(env: Env, e: Event, ip: Address, minutes: int, difficulty: int) {
    var effective := EffectiveFor(env, e);
    e.ip == ip && effective.autoBlockEnabled && effective.proxyHostId.Some? &&
    minutes == effective.settings.challengeMinutes && difficulty == effective.settings.challengeDifficulty
  }

  /** The event orders this rate limit: for the minutes of its settings, longer for every repetition
      where the autopilot decided, and for a month at most. */
  ghost predicate OrdersLimit(env: Env, e: Event, x: RateLimitRecord) {
    var effective := EffectiveFor(env, e);
    var minutes := effective.settings.rateLimitMinutes;
    x.target == Exact(e.ip) && x.createdAt == env.now && effective.autoBlockEnabled && Answerable(e.ip, env.trusted) &&
    match x.origin
    case BySoftLimit => x.decision.None? && x.minutes == minutes && RuleForEvent(e).None? && IsCustomSoft(e)
    case ByRule(key) => x.decision.None? && x.minutes == Min(43_200, minutes) && RuleForEvent(e) == Some(key) &&
      effective.settings.rules.Get(key) == Action.RateLimit
    case ByAutopilot(key) =>
      x.decision.Some? && x.decision.value.action == Action.RateLimit && RuleForEvent(e) == Some(key) &&
      effective.settings.rules.Get(key) == Action.Auto &&
      x.minutes == Min(43_200, minutes * Min(4, 1 + RepeatBlocks(env.actions, e.ip, env.now)))
    case _ => false
  }

  /** One step adds at most one request and one rate limit, as the event orders. */
  ghost predicate StepOrdered(env: Env, w: Work, w': Work, e: Event) {
    (w'.requests == w.requests ||
     (|w'.requests| == |w.requests| + 1 && w'.requests[..|w.requests|] == w.requests &&
      var q := w'.requests[|w.requests|]; OrdersChallenge(env, e, q.ip, q.minutes, q.difficulty))) &&
    (w'.rateLimitAdditions == w.rateLimitAdditions ||
     (|w'.rateLimitAdditions| == |w.rateLimitAdditions| + 1 && w'.rateLimitAdditions[..|w.rateLimitAdditions|] == w.rateLimitAdditions &&
      OrdersLimit(env, e, w'.rateLimitAdditions[|w.rateLimitAdditions|])))
  }

  lemma RuleOrders(env: Env, w: Work, e: Event, key: RuleKey)
    requires RuleForEvent(e) == Some(key) && Answerable(e.ip, env.trusted) && EffectiveFor(env, e).autoBlockEnabled
    ensures StepOrdered(env, w, ByProtectionRule(env, w, e, EffectiveFor(env, e), key), e)
  {
    hide EffectiveFor, Answerable, RuleForEvent, Confidence, StandingOf, ActiveRateLimit;
    RepeatsOf(env, w, e);
  }

  lemma RepeatsOf(env: Env, w: Work, e: Event)
    ensures StandingOf(env, w, e).repeatBlocks == RepeatBlocks(env.actions, e.ip, env.now)
  {
    hide RepeatBlocks, GraceExpired, ActiveRateLimit;
  }

  lemma ThresholdsOrder(env: Env, w: Work, e: Event)
    requires EffectiveFor(env, e).autoBlockEnabled && !(RuleForEvent(e).Some? && Answerable(e.ip, env.trusted))
    ensures StepOrdered(env, w, ByThresholds(env, w, e, EffectiveFor(env, e)), e)
  {
    var s := EffectiveFor(env, e).settings;
    OlderHardBlocksUnreachable(e, env.trusted, s.blockThreshold, s.rateLimitThreshold);
    hide EffectiveFor, Answerable, CrawlerCandidate, AutoBlockCandidate, AutoRateLimitCandidate, GraceExpired, ActiveRateLimit, Strike,
      IsCustomSoft, RuleForEvent;
  }

  lemma HandleOrders(env: Env, w: Work, e: Event)
    requires NothingInherits(env)
    ensures StepOrdered(env, w, Handle(env, w, e), e)
  {
    assert NoInherit(EffectiveFor(env, e).settings.rules);
    hide StepOrdered, EffectiveFor, Answerable, RuleForEvent, ByProtectionRule, ByThresholds, AlreadyBlocked, ActionFor, NothingInherits;
    if EffectiveFor(env, e).autoBlockEnabled && !AlreadyBlocked(env, w, e.ip) {
      if RuleForEvent(e).Some? && Answerable(e.ip, env.trusted) {
        NeverInherits(env, w, e, EffectiveFor(env, e).settings.rules, RuleForEvent(e).value);
        RuleOrders(env, w, e, RuleForEvent(e).value);
      } else {
        ThresholdsOrder(env, w, e);
      }
    } else {
      NothingOrdered(env, w, e);
    }
  }

  lemma NothingOrdered(env: Env, w: Work, e: Event)
    ensures StepOrdered(env, w, w, e)
  {}

  ghost predicate Ordered(env: Env, w: Work, events: seq<Event>) {
    (forall i :: 0 <= i < |w.requests| ==> RequestOrdered(env, w.requests[i], events)) &&
    forall i :: 0 <= i < |w.rateLimitAdditions| ==> LimitOrdered(env, w.rateLimitAdditions[i], events)
  }

  ghost predicate RequestOrdered(env: Env, q: ChallengeRequest, events: seq<Event>) {
    exists k :: 0 <= k < |events| && OrdersChallenge(env, events[k], q.ip, q.minutes, q.difficulty)
  }

  ghost predicate LimitOrdered(env: Env, x: RateLimitRecord, events: seq<Event>) {
    exists k :: 0 <= k < |events| && OrdersLimit(env, events[k], x)
  }

  lemma OrderedByMore(env: Env, w: Work, w': Work, events: seq<Event>, e: Event)
    requires Ordered(env, w, events) && StepOrdered(env, w, w', e)
    ensures Ordered(env, w', events + [e])
  {
    hide OrdersChallenge, OrdersLimit;
    var all := events + [e];
    assert all[|events|] == e && forall k :: 0 <= k < |events| ==> all[k] == events[k];
    forall i | 0 <= i < |w'.requests|
      ensures RequestOrdered(env, w'.requests[i], all)
    {
      if i < |w.requests| {
        assert w'.requests[i] == w'.requests[..|w.requests|][i] == w.requests[i];
        assert RequestOrdered(env, w.requests[i], events);
      }
    }
    forall i | 0 <= i < |w'.rateLimitAdditions|
      ensures LimitOrdered(env, w'.rateLimitAdditions[i], all)
    {
      if i < |w.rateLimitAdditions| {
        assert w'.rateLimitAdditions[i] == w'.rateLimitAdditions[..|w.rateLimitAdditions|][i] == w.rateLimitAdditions[i];
        assert LimitOrdered(env, w.rateLimitAdditions[i], events);
      }
    }
  }

  lemma {:induction false} WorkIsOrdered(env: Env, escalations: Counters, events: seq<Event>)
    requires NothingInherits(env)
    ensures Ordered(env, Worked(env, escalations, events), events)
  {
    hide Handle, StepOrdered, NothingInherits, RequestOrdered, LimitOrdered;
    if events != [] {
      var n := |events| - 1;
      WorkIsOrdered(env, escalations, events[..n]);
      HandleOrders(env, Worked(env, escalations, events[..n]), events[n]);
      OrderedByMore(env, Worked(env, escalations, events[..n]), Worked(env, escalations, events), events[..n], events[n]);
      assert events[..n] + [events[n]] == events;
    }
  }

  /** Whatever fails, every challenge and every rate limit a pass starts is ordered by an event of the
      batch, with the time, the difficulty and the duration of its settings. */
  lemma StartedAsOrdered(env: Env, hosts: seq<HostPolicy.Host>, groups: seq<Group>, escalations: Counters, events: seq<Event>, f: Faults)
    requires env.context == ContextOf(Entries(env.policy, hosts, groups)) && NoInherit(env.policy.rules)
    ensures var r := Pass(env, escalations, events, f);
      (forall c <- r.challenges :: c in env.challenges ||
        (c.createdAt == Some(env.now) &&
         exists k :: 0 <= k < |events| && OrdersChallenge(env, events[k], c.ip, c.minutes, c.difficulty))) &&
      forall x <- r.rateLimits :: x in env.rateLimits || exists k :: 0 <= k < |events| && OrdersLimit(env, events[k], x)
  {
    hide OrdersChallenge, OrdersLimit, HandleAll, ContextOf, Entries, NoInherit, NothingInherits, RateLimitsAfter;
    NothingLeft(env, hosts, groups);
    WorkIsOrdered(env, escalations, events);
    var w, r := Worked(env, escalations, events), Pass(env, escalations, events, f);
    CreatedOnly(env, w, f);
    LimitsOnly(env, w, f);
    forall x | x in r.rateLimits && x !in env.rateLimits
      ensures exists k :: 0 <= k < |events| && OrdersLimit(env, events[k], x)
    {
      var i :| 0 <= i < |w.rateLimitAdditions| && w.rateLimitAdditions[i] == x;
      assert LimitOrdered(env, w.rateLimitAdditions[i], events);
    }
    forall c | c in r.challenges && c !in env.challenges
      ensures c.createdAt == Some(env.now) &&
        exists k :: 0 <= k < |events| && OrdersChallenge(env, events[k], c.ip, c.minutes, c.difficulty)
    {
      var i :| 0 <= i < |w.requests| && Created(w.requests, env.now)[i] == c;
      assert RequestOrdered(env, w.requests[i], events);
    }
  }

  lemma CreatedOnly(env: Env, w: Work, f: Faults)
    ensures forall c <- Finish(env, w, f).challenges :: c in env.challenges || c in Created(w.requests, env.now)
  {
    hide RateLimitsAfter, Created;
  }

  lemma LimitsOnly(env: Env, w: Work, f: Faults)
    ensures forall x <- Finish(env, w, f).rateLimits :: x in env.rateLimits || x in w.rateLimitAdditions
  {
    RateLimitsAtMost(env, w, f);
  }
}
