/** What a monitor pass guarantees, for every batch of events and every set of active
    responses it starts from. */
module MonitorProofs {
  import opened Wrappers
  import opened Sequences
  import opened Addresses
  import opened HostPolicy
  import opened Autopilot
  import opened MonitorPass
  import Escalation

  predicate InitiallyBlocked(env: Env, ip: Address) {
    Exact(ip) in BlockTargets(env.blocks) || exists i :: 0 <= i < |env.blocks| && Contains(env.blocks[i].target, ip)
  }

  predicate Queued(w: Work, ip: Address) {
    exists i :: 0 <= i < |w.requests| && w.requests[i].ip == ip
  }

  // ----- The invariants of the pass -----

  /** Blocks are for single addresses, each once, and none inside a block active at the start. */
  ghost predicate BlocksOk(env: Env, w: Work) {
    w.blockedIps == BlockTargets(env.blocks) + BlockTargets(w.blockAdditions) &&
    (forall i :: 0 <= i < |w.blockAdditions| ==>
      w.blockAdditions[i].target.prefix == None && !InitiallyBlocked(env, w.blockAdditions[i].target.address)) &&
    (forall i, j :: 0 <= i < j < |w.blockAdditions| ==> w.blockAdditions[i].target != w.blockAdditions[j].target)
  }

  /** No strikes are kept for a blocked address. */
  ghost predicate CountersOk(w: Work) {
    forall i :: 0 <= i < |w.blockAdditions| ==> w.blockAdditions[i].target.address !in w.escalations
  }

  /** Challenges are requested once each, for addresses without one, with a block to fall
      back to. */
  ghost predicate ChallengesOk(env: Env, w: Work) {
    |w.fallbacks| == |w.requests| &&
    (forall ip :: ip in w.challengedIps <==> ip in ChallengeMap(env.challenges) || Queued(w, ip)) &&
    (forall i :: 0 <= i < |w.requests| ==>
      w.fallbacks[i].target == Exact(w.requests[i].ip) && w.requests[i].ip !in ChallengeMap(env.challenges) &&
      !InitiallyBlocked(env, w.requests[i].ip)) &&
    (forall i, j :: 0 <= i < j < |w.requests| ==> w.requests[i].ip != w.requests[j].ip)
  }

  /** The challenges to remove are those that existed for the blocked addresses. */
  ghost predicate RemovalsOk(env: Env, w: Work) {
    forall ip :: ip in w.challengeRemovals <==> ip in ChallengeMap(env.challenges) && Exact(ip) in BlockTargets(w.blockAdditions)
  }

  ghost predicate NewlyLimited(w: Work, t: Target) {
    exists i :: 0 <= i < |w.rateLimitAdditions| && w.rateLimitAdditions[i].target == t
  }

  /** Rate limits are for single addresses that no active rate limit covers, each once. */
  ghost predicate RateLimitsOk(env: Env, w: Work) {
    (forall t :: t in w.rateLimitByIp <==> t in RateLimitMap(env.rateLimits) || NewlyLimited(w, t)) &&
    (forall i :: 0 <= i < |w.rateLimitAdditions| ==>
      var t := w.rateLimitAdditions[i].target;
      t.prefix == None && t !in RateLimitMap(env.rateLimits) && FindRateLimit(env.rateLimits, t.address).None?) &&
    (forall i, j :: 0 <= i < j < |w.rateLimitAdditions| ==> w.rateLimitAdditions[i].target != w.rateLimitAdditions[j].target)
  }

  /** An event of the batch that may cause a response to its address. */
  predicate Causes(env: Env, e: Event, ip: Address) {
    e.ip == ip && Answerable(ip, env.trusted) && EffectiveFor(env, e).autoBlockEnabled
  }

  ghost predicate Caused(env: Env, events: seq<Event>, ip: Address) {
    exists k :: 0 <= k < |events| && Causes(env, events[k], ip)
  }

  /** Every response has a cause in the batch. */
  ghost predicate OriginsOk(env: Env, w: Work, events: seq<Event>) {
    (forall i :: 0 <= i < |w.blockAdditions| ==> Caused(env, events, w.blockAdditions[i].target.address)) &&
    (forall i :: 0 <= i < |w.requests| ==> Caused(env, events, w.requests[i].ip)) &&
    (forall i :: 0 <= i < |w.rateLimitAdditions| ==> Caused(env, events, w.rateLimitAdditions[i].target.address))
  }

  ghost predicate Sound(env: Env, w: Work, events: seq<Event>) {
    BlocksOk(env, w) && CountersOk(w) && ChallengesOk(env, w) && RemovalsOk(env, w) && RateLimitsOk(env, w) &&
    OriginsOk(env, w, events)
  }

  // ----- Each response keeps them -----

  lemma AddedGrows(blocks: seq<BlockRecord>, b: BlockRecord)
    ensures BlockTargets(blocks + [b]) == BlockTargets(blocks) + {b.target}
  {
    var all := blocks + [b];
    assert all[|blocks|] == b;
    assert forall i :: 0 <= i < |blocks| ==> all[i] == blocks[i];
    forall t
      ensures t in BlockTargets(all) <==> t in BlockTargets(blocks) + {b.target}
    {
      if t in BlockTargets(blocks) {
        var i :| 0 <= i < |blocks| && blocks[i].target == t;
        assert all[i].target == t;
      }
    }
  }

  lemma AddBlockKeeps(env: Env, w: Work, events: seq<Event>, ip: Address, origin: Origin, minutes: int, decision: Option<Decision>)
    requires Sound(env, w, events) && !AlreadyBlocked(env, w, ip) && Caused(env, events, ip)
    ensures Sound(env, AddBlock(env, w, ip, origin, minutes, decision), events)
  {
    var w' := AddBlock(env, w, ip, origin, minutes, decision);
    assert ChallengesOk(env, w') && RateLimitsOk(env, w');
    hide ChallengesOk, RateLimitsOk, Caused;
    AddedGrows(w.blockAdditions, NewBlock(env, w, ip, origin, minutes, decision));
    assert BlocksOk(env, w');
    assert CountersOk(w');
    assert RemovalsOk(env, w');
  }

  lemma QueueKeepsChallenges(env: Env, w: Work, ip: Address, settings: Settings, origin: Origin, decision: Option<Decision>)
    requires ChallengesOk(env, w) && !InitiallyBlocked(env, ip) && ip !in w.challengedIps
    ensures ChallengesOk(env, QueueChallenge(env, w, ip, settings, origin, decision))
  {
    hide InitiallyBlocked;
    var w' := QueueChallenge(env, w, ip, settings, origin, decision);
    var n := |w.requests|;
    assert w'.requests[n].ip == ip;
    forall x
      ensures Queued(w', x) <==> Queued(w, x) || x == ip
    {
      if Queued(w, x) {
        var i :| 0 <= i < n && w.requests[i].ip == x;
        assert w'.requests[i].ip == x;
      }
    }
    assert forall i :: 0 <= i < n ==> Queued(w, w.requests[i].ip);
  }

  lemma QueueKeepsOrigins(env: Env, w: Work, events: seq<Event>, ip: Address, settings: Settings, origin: Origin,
                          decision: Option<Decision>)
    requires OriginsOk(env, w, events) && Caused(env, events, ip)
    ensures OriginsOk(env, QueueChallenge(env, w, ip, settings, origin, decision), events)
  {
    hide Caused;
  }

  lemma QueueKeeps(env: Env, w: Work, events: seq<Event>, ip: Address, settings: Settings, origin: Origin, decision: Option<Decision>)
    requires Sound(env, w, events) && !AlreadyBlocked(env, w, ip) && ip !in w.challengedIps && Caused(env, events, ip)
    ensures Sound(env, QueueChallenge(env, w, ip, settings, origin, decision), events)
  {
    var w' := QueueChallenge(env, w, ip, settings, origin, decision);
    assert !InitiallyBlocked(env, ip) by { assert BlocksOk(env, w); }
    hide ChallengesOk, OriginsOk, InitiallyBlocked, AlreadyBlocked, Caused;
    assert CountersOk(w') && BlocksOk(env, w') && RateLimitsOk(env, w') && RemovalsOk(env, w');
    hide CountersOk, BlocksOk, RateLimitsOk, RemovalsOk, QueueChallenge;
    QueueKeepsChallenges(env, w, ip, settings, origin, decision);
    QueueKeepsOrigins(env, w, events, ip, settings, origin, decision);
  }

  lemma AddRateLimitKeeps(env: Env, w: Work, events: seq<Event>, ip: Address, origin: Origin, minutes: int,
                          decision: Option<Decision>, counted: bool)
    requires Sound(env, w, events) && !AlreadyBlocked(env, w, ip) && ActiveRateLimit(env, w, ip).None? && Caused(env, events, ip)
    ensures Sound(env, AddRateLimit(env, w, ip, origin, minutes, decision, counted), events)
  {
    LimitedIsKnown(env, w, ip, origin, minutes, decision, counted);
    hide RateLimitsOk, Caused;
    BlockedNotCounted(w, ip);
  }

  lemma LimitedIsKnown(env: Env, w: Work, ip: Address, origin: Origin, minutes: int, decision: Option<Decision>, counted: bool)
    requires RateLimitsOk(env, w) && !AlreadyBlocked(env, w, ip) && ActiveRateLimit(env, w, ip).None?
    ensures RateLimitsOk(env, AddRateLimit(env, w, ip, origin, minutes, decision, counted))
  {
    var w' := AddRateLimit(env, w, ip, origin, minutes, decision, counted);
    assert w'.rateLimitAdditions[|w.rateLimitAdditions|].target == Exact(ip);
    forall t
      ensures t in w'.rateLimitByIp <==> t in RateLimitMap(env.rateLimits) || NewlyLimited(w', t)
    {
      if i :| 0 <= i < |w.rateLimitAdditions| && w.rateLimitAdditions[i].target == t {
        assert w'.rateLimitAdditions[i].target == t;
      }
    }
  }

  lemma BlockedNotCounted(w: Work, ip: Address)
    ensures Exact(ip) !in BlockTargets(w.blockAdditions) ==>
      forall i :: 0 <= i < |w.blockAdditions| && w.blockAdditions[i].target.prefix == None ==> w.blockAdditions[i].target.address != ip
  {}

  lemma StrikeKeeps(env: Env, w: Work, events: seq<Event>, ip: Address, s: Escalation.State)
    requires Sound(env, w, events) && !AlreadyBlocked(env, w, ip)
    ensures Sound(env, w.(escalations := w.escalations[ip := s]), events)
  {
    BlockedNotCounted(w, ip);
  }

  lemma ChallengeThenBlockKeeps(env: Env, w: Work, events: seq<Event>, e: Event, effective: Effective, first: Origin, after: bool -> Origin)
    requires Sound(env, w, events) && !AlreadyBlocked(env, w, e.ip) && Caused(env, events, e.ip)
    ensures Sound(env, ChallengeThenBlock(env, w, e, effective, first, after), events)
  {
    if effective.proxyHostId.Some? && e.ip !in w.challengedIps {
      QueueKeeps(env, w, events, e.ip, effective.settings, first, None);
    } else if !(effective.proxyHostId.Some? && !GraceExpired(env, e)) {
      AddBlockKeeps(env, w, events, e.ip, after(e.ip in ChallengeMap(env.challenges)), effective.settings.blockMinutes, None);
    }
  }

  lemma ByProtectionRuleKeeps(env: Env, w: Work, events: seq<Event>, e: Event, effective: Effective, key: RuleKey)
    requires Sound(env, w, events) && !AlreadyBlocked(env, w, e.ip) && Caused(env, events, e.ip)
    ensures Sound(env, ByProtectionRule(env, w, e, effective, key), events)
  {
    hide Sound, Caused;
    var s := effective.settings;
    var decision := DecisionFor(env, w, e, s.rules, key);
    var origin := if decision.Some? then ByAutopilot(key) else ByRule(key);
    var multiplier := if decision.Some? then decision.value.durationMultiplier else 1;
    match ActionFor(env, w, e, s.rules, key)
    case Block => AddBlockKeeps(env, w, events, e.ip, origin, Min(MAX_MINUTES, s.blockMinutes * multiplier), decision);
    case Challenge =>
      if effective.proxyHostId.Some? && e.ip !in w.challengedIps {
        QueueKeeps(env, w, events, e.ip, s, origin, decision);
      }
    case RateLimit =>
      if ActiveRateLimit(env, w, e.ip).None? {
        AddRateLimitKeeps(env, w, events, e.ip, origin, Min(MAX_MINUTES, s.rateLimitMinutes * multiplier), decision, decision.Some?);
      }
    case _ =>
  }

  lemma ByThresholdsKeeps(env: Env, w: Work, events: seq<Event>, e: Event, effective: Effective)
    requires Sound(env, w, events) && !AlreadyBlocked(env, w, e.ip)
    requires Answerable(e.ip, env.trusted) ==> Caused(env, events, e.ip)
    ensures Sound(env, ByThresholds(env, w, e, effective), events)
  {
    hide Sound, Caused, Answerable, ChallengeThenBlock, AddBlock, AddRateLimit, Strike;
    var s := effective.settings;
    if CrawlerCandidate(e, env.trusted, s.blockThreshold) {
      AddBlockKeeps(env, w, events, e.ip, ByCrawlerAttack, s.blockMinutes, None);
    } else if AutoBlockCandidate(e, env.trusted, s.blockThreshold) {
      ChallengeThenBlockKeeps(env, w, events, e, effective, ByHighConfidence(false), had => ByHighConfidence(had));
    } else if AutoRateLimitCandidate(e, env.trusted, s.rateLimitThreshold) {
      match ActiveRateLimit(env, w, e.ip)
      case None => AddRateLimitKeeps(env, w, events, e.ip, BySoftLimit, s.rateLimitMinutes, None, true);
      case Some(r) =>
        if r.origin.BySoftLimit? {
          var strike := Strike(env, w, e, r);
          var struck := w.(escalations := w.escalations[e.ip := strike.state]);
          StrikeKeeps(env, w, events, e.ip, strike.state);
          if strike.escalated {
            ChallengeThenBlockKeeps(env, struck, events, e, effective, ByEscalation(false), had => ByEscalation(had));
          }
        }
    }
  }

  lemma CausedByLast(env: Env, events: seq<Event>, e: Event, ip: Address)
    ensures Caused(env, events, ip) ==> Caused(env, events + [e], ip)
    ensures Causes(env, e, ip) ==> Caused(env, events + [e], ip)
  {
    var all := events + [e];
    assert all[|events|] == e;
    if Caused(env, events, ip) {
      var k :| 0 <= k < |events| && Causes(env, events[k], ip);
      assert all[k] == events[k];
    }
  }

  lemma OkForMore(env: Env, w: Work, events: seq<Event>, e: Event)
    requires Sound(env, w, events)
    ensures Sound(env, w, events + [e])
  {
    hide Caused, BlocksOk, CountersOk, ChallengesOk, RemovalsOk, RateLimitsOk;
    forall ip
      ensures Caused(env, events, ip) ==> Caused(env, events + [e], ip)
    {
      CausedByLast(env, events, e, ip);
    }
  }

  lemma HandleKeeps(env: Env, w: Work, events: seq<Event>, e: Event)
    requires Sound(env, w, events)
    ensures Sound(env, Handle(env, w, e), events + [e])
  {
    hide Sound, ByProtectionRule, ByThresholds, Resolve, Answerable, ActionFor;
    OkForMore(env, w, events, e);
    CausedByLast(env, events, e, e.ip);
    var effective := EffectiveFor(env, e);
    if effective.autoBlockEnabled && !AlreadyBlocked(env, w, e.ip) {
      if RuleForEvent(e).Some? && Answerable(e.ip, env.trusted) &&
        ActionFor(env, w, e, effective.settings.rules, RuleForEvent(e).value) != Inherit
      {
        ByProtectionRuleKeeps(env, w, events + [e], e, effective, RuleForEvent(e).value);
      } else {
        ByThresholdsKeeps(env, w, events + [e], e, effective);
      }
    }
  }

  lemma StartIsSound(env: Env, escalations: map<Address, Escalation.State>)
    ensures Sound(env, Start(env, escalations), [])
  {}

  lemma {:induction false} PassKeeps(env: Env, escalations: map<Address, Escalation.State>, events: seq<Event>)
    ensures Sound(env, HandleAll(env, Start(env, escalations), events), events)
  {
    StartIsSound(env, escalations);
    hide Sound, Handle, Start;
    if events != [] {
      var n := |events| - 1;
      PassKeeps(env, escalations, events[..n]);
      HandleKeeps(env, HandleAll(env, Start(env, escalations), events[..n]), events[..n], events[n]);
      assert events[..n] + [events[n]] == events;
    }
  }

  // ----- Why an address was blocked -----

  /** The event escalates at its turn: it is risky enough for a soft limit by a custom rule, its
      address is under such a limit already, and its strike is the one that reaches the threshold. */
  predicate Escalates(env: Env, w: Work, e: Event) {
    var limit := ActiveRateLimit(env, w, e.ip);
    RuleForEvent(e).None? && IsCustomSoft(e) &&
    AutoRateLimitCandidate(e, env.trusted, EffectiveFor(env, e).settings.rateLimitThreshold) &&
    limit.Some? && limit.value.origin.BySoftLimit? &&
    var strike := Strike(env, w, e, limit.value);
    strike.counted && strike.state.strikes >= env.escalation.hits
  }

  /** The event justifies a block of its address, for as long as the block lasts; `w` is the work
      at its turn.  A rule set to block needs only the event.  The autopilot needs its threshold,
      and a challenge already running must be past its grace period; so must one before an
      escalation, unless the host cannot be challenged.  A block in place of a challenge needs
      what the challenge needs. */
  ghost predicate JustifiedBy(env: Env, w: Work, b: BlockRecord, e: Event) {
    var effective := EffectiveFor(env, e);
    var s := effective.settings;
    var challenged := e.ip in ChallengeMap(env.challenges);
    b.target == Exact(e.ip) && Answerable(e.ip, env.trusted) && effective.autoBlockEnabled && !AlreadyBlocked(env, w, e.ip) &&
    match b.origin
    case ByRule(key) =>
      RuleForEvent(e) == Some(key) && s.rules.Get(key) == Action.Block && b.decision.None? &&
      b.minutes == Min(43_200, s.blockMinutes)
    case ByAutopilot(key) =>
      RuleForEvent(e) == Some(key) && s.rules.Get(key) == Action.Auto &&
      b.decision == Some(Decide(e, env.profile, StandingOf(env, w, e))) && b.decision.value.action == Action.Block &&
      (challenged ==> GraceExpired(env, e)) &&
      b.decision.value.confidence >= (if challenged then ThresholdsOf(env.profile).challenge else ThresholdsOf(env.profile).block) &&
      b.minutes == Min(43_200, s.blockMinutes * Min(4, 1 + RepeatBlocks(env.actions, e.ip, env.now)))
    case ByEscalation(hadChallenge) =>
      Escalates(env, w, e) && hadChallenge == challenged && (effective.proxyHostId.None? || GraceExpired(env, e)) &&
      b.decision.None? && b.minutes == s.blockMinutes
    case ChallengeUnavailable(origin) =>
      effective.proxyHostId.Some? && e.ip !in w.challengedIps && b.minutes == s.blockMinutes &&
      AsksChallenge(env, w, e, origin, b.decision)
    case _ => false
  }

  /** What a challenge of an address without one needs. */
  ghost predicate AsksChallenge(env: Env, w: Work, e: Event, origin: Origin, d: Option<Decision>) {
    var rules, t := EffectiveFor(env, e).settings.rules, ThresholdsOf(env.profile);
    match origin
    case ByRule(key) => RuleForEvent(e) == Some(key) && rules.Get(key) == Action.Challenge && d.None?
    case ByAutopilot(key) =>
      RuleForEvent(e) == Some(key) && rules.Get(key) == Action.Auto &&
      d == Some(Decide(e, env.profile, StandingOf(env, w, e))) && d.value.action == Action.Challenge &&
      d.value.confidence < t.block &&
      d.value.confidence >= if ActiveRateLimit(env, w, e.ip).Some? then Min(t.rateLimit, t.challenge) else t.challenge
    case ByEscalation(hadChallenge) => Escalates(env, w, e) && !hadChallenge && d.None?
    case _ => false
  }

  ghost predicate Justified(env: Env, escalations: Counters, events: seq<Event>, b: BlockRecord) {
    exists k :: 0 <= k < |events| && JustifiedBy(env, Turn(env, escalations, events, k), b, events[k])
  }

  ghost predicate AllJustified(env: Env, escalations: Counters, blocks: seq<BlockRecord>, events: seq<Event>) {
    forall i :: 0 <= i < |blocks| ==> Justified(env, escalations, events, blocks[i])
  }

  ghost predicate NothingInherits(env: Env) {
    forall e :: NoInherit(EffectiveFor(env, e).settings.rules)
  }

  lemma JustifiedByLast(env: Env, escalations: Counters, events: seq<Event>, e: Event, b: BlockRecord)
    ensures Justified(env, escalations, events, b) ==> Justified(env, escalations, events + [e], b)
    ensures JustifiedBy(env, Worked(env, escalations, events), b, e) ==> Justified(env, escalations, events + [e], b)
  {
    hide JustifiedBy, Worked;
    var all := events + [e];
    assert all[|events|] == e && all[..|events|] == events;
    if JustifiedBy(env, Worked(env, escalations, events), b, e) {
      assert JustifiedBy(env, Turn(env, escalations, all, |events|), b, all[|events|]);
    }
    if Justified(env, escalations, events, b) {
      var k :| 0 <= k < |events| && JustifiedBy(env, Turn(env, escalations, events, k), b, events[k]);
      assert all[k] == events[k] && all[..k] == events[..k];
      assert JustifiedBy(env, Turn(env, escalations, all, k), b, all[k]);
    }
  }

  ghost predicate AddsJustified(env: Env, w: Work, e: Event, before: seq<BlockRecord>, after: seq<BlockRecord>) {
    after == before || (|after| == |before| + 1 && after[..|before|] == before && JustifiedBy(env, w, after[|before|], e))
  }

  lemma BlocksStayJustified(env: Env, escalations: Counters, events: seq<Event>, e: Event,
                            before: seq<BlockRecord>, after: seq<BlockRecord>)
    requires AddsJustified(env, Worked(env, escalations, events), e, before, after)
    requires AllJustified(env, escalations, before, events)
    ensures AllJustified(env, escalations, after, events + [e])
  {
    hide JustifiedBy, Justified, Worked;
    forall i | 0 <= i < |after|
      ensures Justified(env, escalations, events + [e], after[i])
    {
      JustifiedByLast(env, escalations, events, e, after[i]);
      assert i < |before| ==> after[i] == after[..|before|][i] == before[i];
    }
  }

  /** The event adds at most one block or one block to fall back to, and justifies it. */
  ghost predicate StepJustified(env: Env, w: Work, w': Work, e: Event) {
    AddsJustified(env, w, e, w.blockAdditions, w'.blockAdditions) && AddsJustified(env, w, e, w.fallbacks, w'.fallbacks)
  }

  lemma RuleJustifies(env: Env, w: Work, e: Event, key: RuleKey)
    requires RuleForEvent(e) == Some(key) && Answerable(e.ip, env.trusted) && EffectiveFor(env, e).autoBlockEnabled
    requires !AlreadyBlocked(env, w, e.ip) && (e.ip in ChallengeMap(env.challenges) ==> e.ip in w.challengedIps)
    ensures StepJustified(env, w, ByProtectionRule(env, w, e, EffectiveFor(env, e), key), e)
  {
    hide Answerable, GraceExpired, Resolve, StrongSignals, RepeatBlocks, RuleForEvent, ActiveRateLimit, AlreadyBlocked, Escalates;
  }

  lemma ThresholdsJustify(env: Env, w: Work, e: Event)
    requires !(RuleForEvent(e).Some? && Answerable(e.ip, env.trusted)) && EffectiveFor(env, e).autoBlockEnabled
    requires !AlreadyBlocked(env, w, e.ip) && (e.ip in ChallengeMap(env.challenges) ==> e.ip in w.challengedIps)
    ensures StepJustified(env, w, ByThresholds(env, w, e, EffectiveFor(env, e)), e)
  {
    hide GraceExpired, Resolve, RuleForEvent, CrawlerCandidate, AutoBlockCandidate, AutoRateLimitCandidate, Escalation.Register,
      AlreadyBlocked, IsCustomSoft, Answerable, ActiveRateLimit;
    var s := EffectiveFor(env, e).settings;
    OlderHardBlocksUnreachable(e, env.trusted, s.blockThreshold, s.rateLimitThreshold);
    EscalatedMeans(env, w, e);
  }

  lemma EscalatedMeans(env: Env, w: Work, e: Event)
    ensures forall r :: Strike(env, w, e, r).escalated <==>
      Strike(env, w, e, r).counted && Strike(env, w, e, r).state.strikes >= env.escalation.hits
  {
    hide Escalation.Resets, Escalation.FreshState, Escalation.CooldownReference;
  }

  lemma HandleJustifies(env: Env, w: Work, e: Event)
    requires NothingInherits(env) && ChallengeMap(env.challenges).Keys <= w.challengedIps
    ensures StepJustified(env, w, Handle(env, w, e), e)
  {
    hide Answerable, Resolve, ByProtectionRule, ByThresholds, JustifiedBy, AlreadyBlocked, RuleForEvent, Decide;
    var effective := EffectiveFor(env, e);
    assert NoInherit(effective.settings.rules);
    if effective.autoBlockEnabled && !AlreadyBlocked(env, w, e.ip) {
      if RuleForEvent(e).Some? && Answerable(e.ip, env.trusted) {
        NeverInherits(env, w, e, effective.settings.rules, RuleForEvent(e).value);
        RuleJustifies(env, w, e, RuleForEvent(e).value);
      } else {
        ThresholdsJustify(env, w, e);
      }
    }
  }

  /** A rule with an action of its own never comes out as `inherit`. */
  lemma NeverInherits(env: Env, w: Work, e: Event, rules: Rules, key: RuleKey)
    requires rules.Get(key) != Inherit
    ensures ActionFor(env, w, e, rules, key) != Inherit
  {}

  lemma {:induction false} PassJustifies(env: Env, escalations: Counters, events: seq<Event>)
    requires NothingInherits(env)
    ensures var w := Worked(env, escalations, events);
      AllJustified(env, escalations, w.blockAdditions, events) && AllJustified(env, escalations, w.fallbacks, events)
  {
    hide Handle, Justified, AddsJustified, Sound;
    if events != [] {
      var n := |events| - 1;
      var w := Worked(env, escalations, events[..n]);
      PassJustifies(env, escalations, events[..n]);
      PassKeeps(env, escalations, events[..n]);
      ChallengedAreKnown(env, w, events[..n]);
      HandleJustifies(env, w, events[n]);
      assert events[..n] + [events[n]] == events;
      BlocksStayJustified(env, escalations, events[..n], events[n], w.blockAdditions, Handle(env, w, events[n]).blockAdditions);
      BlocksStayJustified(env, escalations, events[..n], events[n], w.fallbacks, Handle(env, w, events[n]).fallbacks);
    }
  }

  lemma ChallengedAreKnown(env: Env, w: Work, events: seq<Event>)
    requires Sound(env, w, events)
    ensures ChallengeMap(env.challenges).Keys <= w.challengedIps
  {
    hide BlocksOk, CountersOk, RemovalsOk, RateLimitsOk, OriginsOk;
  }
}
