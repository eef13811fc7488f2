/** When a pass leaves an address with both a new block and a new challenge. */
module MonitorStacking {
  import opened Wrappers
  import opened Addresses
  import opened HostPolicy
  import opened Autopilot
  import opened MonitorPass
  import opened MonitorProofs
  import opened MonitorResults

  // ----- The guards of the two branches -----

  predicate Reached(env: Env, w: Work, e: Event) {
    EffectiveFor(env, e).autoBlockEnabled && !AlreadyBlocked(env, w, e.ip)
  }

  /** A protection rule deals with the event, by this action. */
  function RuleAction(env: Env, w: Work, e: Event): Option<Action> {
    if RuleForEvent(e).Some? && Answerable(e.ip, env.trusted) then
      var action := ActionFor(env, w, e, EffectiveFor(env, e).settings.rules, RuleForEvent(e).value);
      if action == Inherit then None else Some(action)
    else None
  }

  /** Past the older thresholds the event calls for a challenge before a block. */
  predicate ChallengesFirst(env: Env, w: Work, e: Event) {
    var s := EffectiveFor(env, e).settings;
    var limit := ActiveRateLimit(env, w, e.ip);
    !CrawlerCandidate(e, env.trusted, s.blockThreshold) &&
    (AutoBlockCandidate(e, env.trusted, s.blockThreshold) ||
     (AutoRateLimitCandidate(e, env.trusted, s.rateLimitThreshold) && limit.Some? && limit.value.origin.BySoftLimit? &&
      Strike(env, w, e, limit.value).escalated))
  }

  /** The event gets its address challenged: that is the action, its host is a proxy host, and
      no challenge is active or queued. */
  predicate StartsChallenge(env: Env, w: Work, e: Event) {
    Reached(env, w, e) && EffectiveFor(env, e).proxyHostId.Some? && e.ip !in w.challengedIps &&
    match RuleAction(env, w, e)
    case Some(action) => action == Action.Challenge
    case None => ChallengesFirst(env, w, e)
  }

  /** The event gets its address blocked: by its rule, or past the thresholds when no challenge
      is possible or one is past its grace period. */
  predicate StartsBlock(env: Env, w: Work, e: Event) {
    Reached(env, w, e) &&
    match RuleAction(env, w, e)
    case Some(action) => action == Action.Block
    case None =>
      CrawlerCandidate(e, env.trusted, EffectiveFor(env, e).settings.blockThreshold) ||
      (ChallengesFirst(env, w, e) &&
       (EffectiveFor(env, e).proxyHostId.None? || (e.ip in w.challengedIps && GraceExpired(env, e))))
  }

  // ----- What one event adds -----

  ghost predicate OneRequest(w: Work, w': Work, ip: Address) {
    |w'.requests| == |w.requests| + 1 && w'.requests[..|w.requests|] == w.requests && w'.requests[|w.requests|].ip == ip
  }

  ghost predicate OneBlock(w: Work, w': Work, ip: Address) {
    |w'.blockAdditions| == |w.blockAdditions| + 1 && w'.blockAdditions[..|w.blockAdditions|] == w.blockAdditions &&
    w'.blockAdditions[|w.blockAdditions|].target == Exact(ip) && Exact(ip) in w'.blockedIps
  }

  /** What a step adds to the requests and to the blocks. */
  ghost predicate Adds(w: Work, w': Work, ip: Address, challenge: bool, block: bool) {
    (if challenge then OneRequest(w, w', ip) else w'.requests == w.requests) &&
    (if block then OneBlock(w, w', ip) else w'.blockAdditions == w.blockAdditions)
  }

  lemma RuleAdds(env: Env, w: Work, e: Event, key: RuleKey)
    ensures var effective := EffectiveFor(env, e);
      var action := ActionFor(env, w, e, effective.settings.rules, key);
      Adds(w, ByProtectionRule(env, w, e, effective, key), e.ip,
        action == Action.Challenge && effective.proxyHostId.Some? && e.ip !in w.challengedIps, action == Action.Block)
  {
    hide EffectiveFor, DecisionFor, ActionFor, ActiveRateLimit;
  }

  lemma ThresholdsAdd(env: Env, w: Work, e: Event)
    ensures var effective := EffectiveFor(env, e);
      Adds(w, ByThresholds(env, w, e, effective), e.ip,
        ChallengesFirst(env, w, e) && effective.proxyHostId.Some? && e.ip !in w.challengedIps,
        CrawlerCandidate(e, env.trusted, effective.settings.blockThreshold) ||
        (ChallengesFirst(env, w, e) && (effective.proxyHostId.None? || (e.ip in w.challengedIps && GraceExpired(env, e)))))
  {
    hide EffectiveFor, GraceExpired, Strike, CrawlerCandidate, AutoBlockCandidate, AutoRateLimitCandidate, ActiveRateLimit;
  }

  /** An event gets its address challenged or blocked exactly when it passes the guards. */
  lemma HandleAdds(env: Env, w: Work, e: Event)
    ensures Adds(w, Handle(env, w, e), e.ip, StartsChallenge(env, w, e), StartsBlock(env, w, e))
  {
    hide OneRequest, OneBlock, EffectiveFor, ByProtectionRule, ByThresholds, ActionFor, RuleForEvent, Answerable, AlreadyBlocked,
      CrawlerCandidate, ChallengesFirst, GraceExpired;
    if RuleForEvent(e).Some? {
      RuleAdds(env, w, e, RuleForEvent(e).value);
    }
    ThresholdsAdd(env, w, e);
  }

  lemma NotBoth(env: Env, w: Work, e: Event)
    ensures !(StartsChallenge(env, w, e) && StartsBlock(env, w, e))
  {
    hide Reached, RuleAction, CrawlerCandidate, AutoBlockCandidate, AutoRateLimitCandidate, Resolve, GraceExpired;
  }

  // ----- What a batch adds -----

  ghost predicate ChallengedAt(env: Env, escalations: Counters, events: seq<Event>, ip: Address, j: nat)
    requires j < |events|
  {
    events[j].ip == ip && StartsChallenge(env, Turn(env, escalations, events, j), events[j])
  }

  ghost predicate BlockedAt(env: Env, escalations: Counters, events: seq<Event>, ip: Address, k: nat)
    requires k < |events|
  {
    events[k].ip == ip && StartsBlock(env, Turn(env, escalations, events, k), events[k])
  }

  lemma LastTurn(env: Env, escalations: Counters, events: seq<Event>)
    requires events != []
    ensures var n := |events| - 1;
      Turn(env, escalations, events, n) == Worked(env, escalations, events[..n]) &&
      Worked(env, escalations, events) == Handle(env, Turn(env, escalations, events, n), events[n]) &&
      forall k :: 0 <= k <= n ==> Turn(env, escalations, events[..n], k) == Turn(env, escalations, events, k)
  {
    hide Handle, Start;
    var n := |events| - 1;
    forall k | 0 <= k <= n
      ensures events[..n][..k] == events[..k]
    {
    }
  }

  lemma {:induction false} QueuedIff(env: Env, escalations: Counters, events: seq<Event>, ip: Address)
    ensures Queued(Worked(env, escalations, events), ip) <==> exists j :: 0 <= j < |events| && ChallengedAt(env, escalations, events, ip, j)
  {
    hide Handle, Turn, StartsChallenge, HandleAll;
    if events == [] {
      NothingYet(env, escalations, ip);
    } else {
      var n := |events| - 1;
      var init := events[..n];
      LastTurn(env, escalations, events);
      QueuedIff(env, escalations, init, ip);
      var before := Turn(env, escalations, events, n);
      HandleAdds(env, before, events[n]);
      QueuedGrows(before.requests, Handle(env, before, events[n]).requests, ip);
      forall j | 0 <= j < n
        ensures ChallengedAt(env, escalations, init, ip, j) <==> ChallengedAt(env, escalations, events, ip, j)
      {
      }
      assert ChallengedAt(env, escalations, events, ip, n) <==> events[n].ip == ip && StartsChallenge(env, before, events[n]);
    }
  }

  lemma QueuedGrows(before: seq<ChallengeRequest>, after: seq<ChallengeRequest>, ip: Address)
    requires after == before || (|after| == |before| + 1 && after[..|before|] == before)
    ensures (exists i :: 0 <= i < |after| && after[i].ip == ip) <==>
      (exists i :: 0 <= i < |before| && before[i].ip == ip) || (|after| > |before| && after[|before|].ip == ip)
  {
    if i :| 0 <= i < |before| && before[i].ip == ip {
      assert after[..|before|][i] == after[i];
    }
    if i :| 0 <= i < |after| && after[i].ip == ip && i < |before| {
      assert after[..|before|][i] == after[i];
    }
  }

  lemma NothingYet(env: Env, escalations: Counters, ip: Address)
    ensures !Queued(Worked(env, escalations, []), ip) && Worked(env, escalations, []).blockAdditions == []
  {}

  lemma {:induction false} BlockedIff(env: Env, escalations: Counters, events: seq<Event>, ip: Address)
    ensures Exact(ip) in BlockTargets(Worked(env, escalations, events).blockAdditions) <==>
      exists k :: 0 <= k < |events| && BlockedAt(env, escalations, events, ip, k)
  {
    hide Handle, Turn, StartsBlock, HandleAll;
    if events == [] {
      NothingYet(env, escalations, ip);
    } else {
      var n := |events| - 1;
      var init := events[..n];
      LastTurn(env, escalations, events);
      BlockedIff(env, escalations, init, ip);
      var before := Turn(env, escalations, events, n);
      HandleAdds(env, before, events[n]);
      TargetsGrow(before.blockAdditions, Handle(env, before, events[n]).blockAdditions);
      forall k | 0 <= k < n
        ensures BlockedAt(env, escalations, init, ip, k) <==> BlockedAt(env, escalations, events, ip, k)
      {
      }
      assert BlockedAt(env, escalations, events, ip, n) <==> events[n].ip == ip && StartsBlock(env, before, events[n]);
    }
  }

  lemma TargetsGrow(before: seq<BlockRecord>, after: seq<BlockRecord>)
    requires after == before || (|after| == |before| + 1 && after[..|before|] == before)
    ensures BlockTargets(after) == BlockTargets(before) + if after == before then {} else {after[|before|].target}
  {
    if after != before {
      AddedGrows(before, after[|before|]);
      assert after == before + [after[|before|]];
    }
  }

  lemma {:induction false} BlockedStays(env: Env, escalations: Counters, events: seq<Event>, ip: Address, k: nat, j: nat)
    requires k < j <= |events| && BlockedAt(env, escalations, events, ip, k)
    ensures Exact(ip) in Turn(env, escalations, events, j).blockedIps
    decreases j
  {
    hide Handle, StartsBlock, HandleAll;
    var before := Turn(env, escalations, events, j - 1);
    TurnAfter(env, escalations, events, j - 1);
    if k == j - 1 {
      HandleAdds(env, before, events[k]);
    } else {
      BlockedStays(env, escalations, events, ip, k, j - 1);
      HandleGrows(env, before, events[j - 1]);
    }
  }

  lemma TurnAfter(env: Env, escalations: Counters, events: seq<Event>, k: nat)
    requires k < |events|
    ensures Turn(env, escalations, events, k + 1) == Handle(env, Turn(env, escalations, events, k), events[k])
  {
    hide Handle, Start;
    assert events[..k + 1][..k] == events[..k];
  }

  // ----- Challenges under blocks -----

  /** After the pass the address has a new block and a new challenge as well. */
  ghost predicate Stacked(env: Env, r: PassResult, ip: Address) {
    NewlyBlocked(env, r, ip) && exists c :: c in r.challenges && c !in env.challenges && c.ip == ip
  }

  lemma NewChallengeIff(env: Env, w: Work, f: Faults, ip: Address)
    requires ChallengesOk(env, w) && RemovalsOk(env, w) && NoFaults(env, w, f)
    ensures (exists c :: c in Finish(env, w, f).challenges && c !in env.challenges && c.ip == ip) <==> Queued(w, ip)
  {
    hide RateLimitsAfter, ChangesRateLimits, InitiallyBlocked, ChallengeMap, FinalAdditions;
    var r := Finish(env, w, f);
    if i :| 0 <= i < |w.requests| && w.requests[i].ip == ip {
      var c := Created(w.requests, env.now)[i];
      MapHasChallenges(env.challenges, ip);
      assert c in Created(w.requests, env.now) && c.ip == ip;
      assert c in env.challenges + Created(w.requests, env.now);
      assert c in r.challenges && c !in env.challenges;
    }
    ChallengesAtMost(env, w, f);
  }

  lemma NewBlockIff(env: Env, w: Work, f: Faults, ip: Address)
    requires NoFaults(env, w, f)
    ensures NewlyBlocked(env, Finish(env, w, f), ip) <==> Exact(ip) in BlockTargets(w.blockAdditions)
  {
    hide Finish;
    AddedIs(env, w, f);
  }

  lemma StackedMeans(env: Env, escalations: Counters, events: seq<Event>, f: Faults, ip: Address)
    requires NoFaults(env, Worked(env, escalations, events), f)
    ensures Stacked(env, Pass(env, escalations, events, f), ip) <==>
      Queued(Worked(env, escalations, events), ip) && Exact(ip) in BlockTargets(Worked(env, escalations, events).blockAdditions)
  {
    hide HandleAll, Finish, NoFaults, BlocksOk, ChallengesOk, RemovalsOk, RateLimitsOk, OriginsOk, CountersOk, NewlyBlocked, Queued;
    var w := Worked(env, escalations, events);
    PassKeeps(env, escalations, events);
    NewChallengeIff(env, w, f, ip);
    NewBlockIff(env, w, f, ip);
  }

  /** The documentation says a hard block replaces a challenge instead of stacking on it.  That
      holds for challenges from before the pass.  One that the same pass starts stays: after a
      pass without faults an address has both a new block and a new challenge exactly when one
      of its events passed the guards for a challenge and a later one those for a block. */
  lemma StackedIff(env: Env, escalations: Counters, events: seq<Event>, f: Faults, ip: Address)
    requires NoFaults(env, Worked(env, escalations, events), f)
    ensures Stacked(env, Pass(env, escalations, events, f), ip) <==>
      exists j, k :: 0 <= j < k < |events| &&
        ChallengedAt(env, escalations, events, ip, j) && BlockedAt(env, escalations, events, ip, k)
  {
    hide Stacked, ChallengedAt, BlockedAt, Queued, Worked, Pass, NoFaults;
    StackedMeans(env, escalations, events, f, ip);
    QueuedIff(env, escalations, events, ip);
    BlockedIff(env, escalations, events, ip);
    forall j, k | 0 <= j < |events| && 0 <= k < |events| &&
      ChallengedAt(env, escalations, events, ip, j) && BlockedAt(env, escalations, events, ip, k)
      ensures j < k
    {
      ChallengeComesFirst(env, escalations, events, ip, j, k);
    }
  }

  lemma ChallengeComesFirst(env: Env, escalations: Counters, events: seq<Event>, ip: Address, j: nat, k: nat)
    requires j < |events| && k < |events|
    requires ChallengedAt(env, escalations, events, ip, j) && BlockedAt(env, escalations, events, ip, k)
    ensures j < k
  {
    hide Turn, StartsBlock, RuleAction, ChallengesFirst, EffectiveFor;
    if j == k {
      NotBoth(env, Turn(env, escalations, events, j), events[j]);
    } else if k < j {
      BlockedStays(env, escalations, events, ip, k, j);
    }
  }

  // ----- When a young challenge ends -----

  /** Over a young challenge an event starts a block exactly when it overrides the grace. */
  lemma YoungBlockIff(env: Env, w: Work, e: Event)
    requires NothingInherits(env) && e.ip in ChallengeMap(env.challenges) && e.ip in w.challengedIps && !GraceExpired(env, e)
    ensures StartsBlock(env, w, e) <==> Reached(env, w, e) && Answerable(e.ip, env.trusted) && OverridesGrace(env, w, e)
  {
    hide Resolve, GraceExpired, RuleForEvent, AlreadyBlocked, ActiveRateLimit, Strike, CrawlerCandidate, AutoBlockCandidate,
      AutoRateLimitCandidate, IsCustomSoft, Answerable, Confidence, RepeatBlocks;
    var s := EffectiveFor(env, e).settings;
    assert NoInherit(s.rules);
    CandidatesAnswerable(env, e);
    EscalatedMeans(env, w, e);
    if RuleForEvent(e).Some? && Answerable(e.ip, env.trusted) {
      NeverInherits(env, w, e, s.rules, RuleForEvent(e).value);
    } else {
      OlderHardBlocksUnreachable(e, env.trusted, s.blockThreshold, s.rateLimitThreshold);
    }
  }

  lemma CandidatesAnswerable(env: Env, e: Event)
    ensures var s := EffectiveFor(env, e).settings;
      !Answerable(e.ip, env.trusted) ==>
        !CrawlerCandidate(e, env.trusted, s.blockThreshold) && !AutoBlockCandidate(e, env.trusted, s.blockThreshold) &&
        !AutoRateLimitCandidate(e, env.trusted, s.rateLimitThreshold)
  {
    hide Resolve, Answerable;
  }

  lemma ChallengedBlockIff(env: Env, w: Work, f: Faults, ip: Address)
    requires f.rateLimits && f.blocks && ChallengesOk(env, w) && ip in ChallengeMap(env.challenges)
    ensures NewlyBlocked(env, Finish(env, w, f), ip) <==> Exact(ip) in BlockTargets(w.blockAdditions)
  {
    hide Finish, InitiallyBlocked, NotYetBlocked, ChallengeMap, ChallengesCreated;
    AddedIs(env, w, f);
    NoFallbackFor(env, w, ip);
    var all, n := FinalAdditions(env, w, f), |w.blockAdditions|;
    assert forall i :: n <= i < |all| ==> all[i] == FallbackBlocks(w)[i - n];
    if i :| 0 <= i < n && w.blockAdditions[i].target == Exact(ip) {
      assert all[i].target == Exact(ip);
    }
  }

  lemma NoFallbackFor(env: Env, w: Work, ip: Address)
    requires ChallengesOk(env, w) && ip in ChallengeMap(env.challenges)
    ensures forall i :: 0 <= i < |FallbackBlocks(w)| ==> FallbackBlocks(w)[i].target != Exact(ip)
  {
    hide InitiallyBlocked, NotYetBlocked, ChallengeMap;
    FallbacksFrom(w.fallbacks, w.blockedIps);
    forall i | 0 <= i < |FallbackBlocks(w)|
      ensures FallbackBlocks(w)[i].target != Exact(ip)
    {
      var b := FallbackBlocks(w)[i];
      assert b in FallbackBlocks(w);
      var k :| 0 <= k < |w.fallbacks| && w.fallbacks[k] == b;
    }
  }

  /** The guards that end a young challenge, at the event's turn. */
  ghost predicate EndsGrace(env: Env, escalations: Counters, events: seq<Event>, ip: Address, k: nat)
    requires k < |events|
  {
    var w := Turn(env, escalations, events, k);
    events[k].ip == ip && Reached(env, w, events[k]) && Answerable(ip, env.trusted) && OverridesGrace(env, w, events[k])
  }

  /** Exactly when an address is blocked although its challenge is younger than its grace period at
      each of its events: when one of them, at its turn, has a rule set to block, or escalates on a
      host that cannot be challenged. */
  lemma GraceEndsIff(env: Env, hosts: seq<HostPolicy.Host>, groups: seq<Group>, escalations: Counters,
                     events: seq<Event>, f: Faults, c: ChallengeRecord)
    requires env.context == ContextOf(Entries(env.policy, hosts, groups)) && NoInherit(env.policy.rules)
    requires c in env.challenges && forall k :: 0 <= k < |events| && events[k].ip == c.ip ==> !GraceExpired(env, events[k])
    requires f.rateLimits && f.blocks
    ensures NewlyBlocked(env, Pass(env, escalations, events, f), c.ip) <==>
      exists k :: 0 <= k < |events| && EndsGrace(env, escalations, events, c.ip, k)
  {
    hide HandleAll, ContextOf, Entries, NoInherit, NothingInherits, GraceExpired, OverridesGrace, StartsBlock, Reached, Turn, Finish,
      BlocksOk, CountersOk, ChallengesOk, RemovalsOk, RateLimitsOk, OriginsOk, NewlyBlocked, ChallengeMap;
    NothingLeft(env, hosts, groups);
    ChallengeIsMapped(env, c);
    PassKeeps(env, escalations, events);
    ChallengedBlockIff(env, Worked(env, escalations, events), f, c.ip);
    BlockedIff(env, escalations, events, c.ip);
    forall k | 0 <= k < |events|
      ensures BlockedAt(env, escalations, events, c.ip, k) <==> EndsGrace(env, escalations, events, c.ip, k)
    {
      if events[k].ip == c.ip {
        KnownAtTurn(env, escalations, events, k);
        YoungBlockIff(env, Turn(env, escalations, events, k), events[k]);
      }
    }
  }
}
