/** The monitor pass as the source runs it: sets, maps and lists that each event updates. */
module ThreatMonitor {
  import opened Wrappers
  import opened Sequences
  import opened Addresses
  import opened HostPolicy
  import opened Autopilot
  import opened MonitorPass
  import MonitorProofs
  import Challenges
  import Escalation

  class Monitor {
    const env: Env
    var blockedIps: set<Target>
    var rateLimitByIp: map<Target, RateLimitRecord>
    var challengedIps: set<Address>
    var blockAdditions: seq<BlockRecord>
    var rateLimitAdditions: seq<RateLimitRecord>
    var challengeRequests: seq<ChallengeRequest>
    var challengeFallbackBlocks: seq<BlockRecord>
    var challengeRemovals: set<Address>
    var escalations: map<Address, Escalation.State>
    var ids: nat

    ghost function Working(): Work
      reads this
    {
      Work(blockedIps, rateLimitByIp, challengedIps, blockAdditions, rateLimitAdditions, challengeRequests,
        challengeFallbackBlocks, challengeRemovals, escalations, ids)
    }

    constructor (env: Env, escalations: map<Address, Escalation.State>)
      ensures this.env == env && Working() == Start(env, escalations)
    {
      this.env := env;
      blockedIps, rateLimitByIp := BlockTargets(env.blocks), RateLimitMap(env.rateLimits);
      challengedIps := ChallengeMap(env.challenges).Keys;
      blockAdditions, rateLimitAdditions, challengeRequests, challengeFallbackBlocks := [], [], [], [];
      challengeRemovals, ids := {}, 0;
      this.escalations := escalations;
    }

    method BlockAddress(ip: Address, origin: Origin, minutes: int, decision: Option<Decision>)
      modifies this
      ensures Working() == AddBlock(env, old(Working()), ip, origin, minutes, decision)
    {
      blockAdditions := blockAdditions + [BlockRecord(env.newId(ids), Exact(ip), origin, minutes, decision)];
      ids := ids + 1;
      blockedIps := blockedIps + {Exact(ip)};
      if ip in ChallengeMap(env.challenges) {
        challengeRemovals := challengeRemovals + {ip};
      }
      escalations := escalations - {ip};
    }

    method Queue(ip: Address, settings: Settings, origin: Origin, decision: Option<Decision>)
      modifies this
      ensures Working() == QueueChallenge(env, old(Working()), ip, settings, origin, decision)
    {
      challengeRequests := challengeRequests +
        [ChallengeRequest(ip, settings.challengeMinutes, settings.challengeDifficulty, origin, decision)];
      challengeFallbackBlocks := challengeFallbackBlocks +
        [BlockRecord(env.newId(ids), Exact(ip), ChallengeUnavailable(origin), settings.blockMinutes, decision)];
      ids := ids + 1;
      challengedIps := challengedIps + {ip};
      escalations := escalations - {ip};
    }

    method LimitAddress(ip: Address, origin: Origin, minutes: int, decision: Option<Decision>, counted: bool)
      modifies this
      ensures Working() == AddRateLimit(env, old(Working()), ip, origin, minutes, decision, counted)
    {
      var entry := RateLimitRecord(env.newId(ids), Exact(ip), origin, minutes, env.now, decision);
      ids := ids + 1;
      rateLimitAdditions := rateLimitAdditions + [entry];
      rateLimitByIp := rateLimitByIp[Exact(ip) := entry];
      if counted {
        escalations := escalations[ip := Escalation.CreateState(CounterView(entry))];
      }
    }

    method FindActiveRateLimit(ip: Address) returns (r: Option<RateLimitRecord>)
      ensures r == ActiveRateLimit(env, Working(), ip)
    {
      if Exact(ip) in rateLimitByIp {
        return Some(rateLimitByIp[Exact(ip)]);
      }
      r := FindRateLimit(env.rateLimits, ip);
    }

    method IsBlocked(ip: Address) returns (blocked: bool)
      ensures blocked == AlreadyBlocked(env, Working(), ip)
    {
      if Exact(ip) in blockedIps {
        return true;
      }
      var i := 0;
      while i < |env.blocks|
        invariant 0 <= i <= |env.blocks|
        invariant forall k :: 0 <= k < i ==> !Contains(env.blocks[k].target, ip)
      {
        if Contains(env.blocks[i].target, ip) {
          return true;
        }
        i := i + 1;
      }
      return false;
    }

    method ChooseAction(event: Event, rules: Rules, key: RuleKey, activeRateLimit: Option<RateLimitRecord>)
      returns (decision: Option<Decision>, action: Action)
      requires activeRateLimit == ActiveRateLimit(env, Working(), event.ip)
      ensures decision == DecisionFor(env, Working(), event, rules, key)
      ensures action == ActionFor(env, Working(), event, rules, key)
    {
      hide Decide, RepeatBlocks, GraceExpired;
      decision := None;
      if rules.Get(key) == Action.Auto {
        var challenged := event.ip in ChallengeMap(env.challenges);
        decision := Some(Decide(event, env.profile,
          Standing(activeRateLimit.Some?, challenged, challenged && GraceExpired(env, event),
            RepeatBlocks(env.actions, event.ip, env.now))));
      }
      action := if decision.Some? then decision.value.action else rules.Get(key);
    }

    method ApplyRule(event: Event, effective: Effective, key: RuleKey)
      modifies this
      ensures Working() == ByProtectionRule(env, old(Working()), event, effective, key)
    {
      hide DecisionFor, ActionFor, AddBlock, QueueChallenge, AddRateLimit;
      var settings := effective.settings;
      var activeRateLimit := FindActiveRateLimit(event.ip);
      var decision, action := ChooseAction(event, settings.rules, key, activeRateLimit);
      var origin := if decision.Some? then ByAutopilot(key) else ByRule(key);
      var multiplier := if decision.Some? then decision.value.durationMultiplier else 1;
      match action {
        case Block =>
          BlockAddress(event.ip, origin, Min(MAX_MINUTES, settings.blockMinutes * multiplier), decision);
        case Challenge =>
          if effective.proxyHostId.Some? && event.ip !in challengedIps {
            Queue(event.ip, settings, origin, decision);
          }
        case RateLimit =>
          if activeRateLimit.None? {
            LimitAddress(event.ip, origin, Min(MAX_MINUTES, settings.rateLimitMinutes * multiplier), decision, decision.Some?);
          }
        case _ =>
      }
    }

    method ChallengeOrBlock(event: Event, effective: Effective, first: Origin, after: bool -> Origin)
      modifies this
      ensures Working() == ChallengeThenBlock(env, old(Working()), event, effective, first, after)
    {
      if effective.proxyHostId.Some? && event.ip !in challengedIps {
        Queue(event.ip, effective.settings, first, None);
        return;
      }
      if effective.proxyHostId.Some? && event.ip in challengedIps && !GraceExpired(env, event) {
        return;
      }
      var hadChallenge := event.ip in ChallengeMap(env.challenges);
      BlockAddress(event.ip, after(hadChallenge), effective.settings.blockMinutes, None);
    }

    method ApplyThresholds(event: Event, effective: Effective)
      modifies this
      ensures Working() == ByThresholds(env, old(Working()), event, effective)
    {
      hide CrawlerCandidate, AutoBlockCandidate, AutoRateLimitCandidate, Escalation.Register, AddBlock, AddRateLimit,
        ChallengeThenBlock;
      var settings := effective.settings;
      if CrawlerCandidate(event, env.trusted, settings.blockThreshold) {
        BlockAddress(event.ip, ByCrawlerAttack, settings.blockMinutes, None);
        return;
      }
      if AutoBlockCandidate(event, env.trusted, settings.blockThreshold) {
        ChallengeOrBlock(event, effective, ByHighConfidence(false), had => ByHighConfidence(had));
        return;
      }
      if !AutoRateLimitCandidate(event, env.trusted, settings.rateLimitThreshold) {
        return;
      }
      var activeRateLimit := FindActiveRateLimit(event.ip);
      if activeRateLimit.None? {
        LimitAddress(event.ip, BySoftLimit, settings.rateLimitMinutes, None, true);
        return;
      }
      if !activeRateLimit.value.origin.BySoftLimit? {
        return;
      }
      var strike := Escalation.Register(Lookup(escalations, event.ip), CounterView(activeRateLimit.value),
        EventTime(env, event), env.escalation);
      escalations := escalations[event.ip := strike.state];
      if strike.escalated {
        ChallengeOrBlock(event, effective, ByEscalation(false), had => ByEscalation(had));
      }
    }

    method HandleEvent(event: Event)
      modifies this
      ensures Working() == Handle(env, old(Working()), event)
    {
      hide ByProtectionRule, ByThresholds, Decide, Answerable, Resolve, RuleForEvent, AlreadyBlocked, RepeatBlocks, GraceExpired;
      var effective := EffectiveFor(env, event);
      var blocked := IsBlocked(event.ip);
      if !effective.autoBlockEnabled || blocked {
        return;
      }
      var ruleMatch := RuleForEvent(event);
      if ruleMatch.Some? && Answerable(event.ip, env.trusted) {
        ghost var before := Working();
        if effective.settings.rules.Get(ruleMatch.value) != Inherit {
          MonitorProofs.NeverInherits(env, before, event, effective.settings.rules, ruleMatch.value);
          ApplyRule(event, effective, ruleMatch.value);
          return;
        }
      }
      ApplyThresholds(event, effective);
    }

    method Run(events: seq<Event>)
      modifies this
      ensures Working() == HandleAll(env, old(Working()), events)
    {
      hide Handle;
      var i := 0;
      assert events[..0] == [];
      while i < |events|
        invariant 0 <= i <= |events|
        invariant Working() == HandleAll(env, old(Working()), events[..i])
      {
        HandleEvent(events[i]);
        assert events[..i + 1][..i] == events[..i];
        i := i + 1;
      }
      assert events[..|events|] == events;
    }

    /** The three commits at the end of the pass. */
    method Commit(f: Faults) returns (r: PassResult)
      modifies this`blockAdditions, this`blockedIps
      ensures r == Finish(env, old(Working()), f)
    {
      hide AlreadyBlocked;
      var rateLimits := env.rateLimits;
      var rateLimitRemovals := Covering(env.rateLimits, blockAdditions);
      if |rateLimitAdditions| > 0 || |rateLimitRemovals| > 0 {
        if !f.rateLimits {
          return PassResult(env.rateLimits, env.challenges, env.blocks, None);
        }
        rateLimits := WithoutIds(env.rateLimits, rateLimitRemovals) + NotCovering(rateLimitAdditions, blockAdditions);
      }
      var challenges := env.challenges;
      if |challengeRequests| > 0 {
        if f.challenges && |env.challenges| + |challengeRequests| <= Challenges.MAX_CHALLENGES {
          challenges := env.challenges + Created(challengeRequests, env.now);
        } else {
          AddFallbacks();
        }
      } else {
        assert Created(challengeRequests, env.now) == [];
        assert env.challenges + [] == env.challenges;
      }
      if |blockAdditions| == 0 {
        return PassResult(rateLimits, challenges, env.blocks, Some(escalations));
      }
      if !f.blocks {
        return PassResult(rateLimits, challenges, env.blocks, None);
      }
      return PassResult(rateLimits, WithoutIps(challenges, challengeRemovals * f.removable), env.blocks + blockAdditions,
        Some(escalations));
    }

    method AddFallbacks()
      modifies this`blockAdditions, this`blockedIps
      ensures blockAdditions == old(blockAdditions) + NotYetBlocked(challengeFallbackBlocks, old(blockedIps))
    {
      var i := 0;
      while i < |challengeFallbackBlocks|
        invariant 0 <= i <= |challengeFallbackBlocks|
        invariant blockAdditions + NotYetBlocked(challengeFallbackBlocks[i..], blockedIps) ==
          old(blockAdditions) + NotYetBlocked(challengeFallbackBlocks, old(blockedIps))
      {
        var block := challengeFallbackBlocks[i];
        ghost var rest := challengeFallbackBlocks[i..];
        assert rest[0] == block && rest[1..] == challengeFallbackBlocks[i + 1..];
        if block.target !in blockedIps {
          AppendAssociates(blockAdditions, [block], NotYetBlocked(rest[1..], blockedIps + {block.target}));
          blockAdditions := blockAdditions + [block];
          blockedIps := blockedIps + {block.target};
        }
        i := i + 1;
      }
      assert challengeFallbackBlocks[i..] == [];
    }
  }
}
