/** The outcome of a whole monitor pass: which responses are in force afterwards. */
module MonitorResults {
  import opened Wrappers
  import opened Addresses
  import opened HostPolicy
  import opened Autopilot
  import opened MonitorPass
  import opened MonitorProofs
  import Escalation

  /** The blocks the pass added to the stored ones. */
  function Added(env: Env, r: PassResult): seq<BlockRecord> {
    if |r.blocks| >= |env.blocks| then r.blocks[|env.blocks|..] else []
  }

  ghost predicate NewlyBlocked(env: Env, r: PassResult, ip: Address) {
    exists i :: 0 <= i < |Added(env, r)| && Added(env, r)[i].target == Exact(ip)
  }

  /** The stored blocks are kept, and the new ones are for single addresses, each once, none
      of them inside a block that was active at the start. */
  ghost predicate BlocksAreNew(env: Env, r: PassResult) {
    env.blocks <= r.blocks &&
    (forall i :: 0 <= i < |Added(env, r)| ==>
      Added(env, r)[i].target.prefix == None && !InitiallyBlocked(env, Added(env, r)[i].target.address)) &&
    forall i, j :: 0 <= i < j < |Added(env, r)| ==> Added(env, r)[i].target != Added(env, r)[j].target
  }

  // ----- When everything works -----

  predicate NoFaults(env: Env, w: Work, f: Faults) {
    f.rateLimits && f.blocks && ChallengesCreated(env, w, f) && w.challengeRemovals <= f.removable
  }

  lemma AddedIs(env: Env, w: Work, f: Faults)
    requires f.rateLimits && f.blocks
    ensures env.blocks <= Finish(env, w, f).blocks && Added(env, Finish(env, w, f)) == FinalAdditions(env, w, f)
  {
    var additions := FinalAdditions(env, w, f);
    assert (env.blocks + additions)[|env.blocks|..] == additions;
  }

  /** No rate limit that is left covers an address blocked by the pass itself. */
  lemma NoLimitCoversBlocked(env: Env, w: Work, x: RateLimitRecord, i: nat)
    requires x in RateLimitsAfter(env, w) && i < |w.blockAdditions|
    ensures !Contains(x.target, w.blockAdditions[i].target.address)
  {
    var removals := Covering(env.rateLimits, w.blockAdditions);
    assert CoversAny(x.target, w.blockAdditions) ==> x in removals || x !in env.rateLimits;
  }

  /** The pass with every commit and the challenge store working.  No address is blocked twice
      or inside an active block; no rate limit covers a newly blocked address; no strikes are
      kept for one; and the challenges removed are exactly the earlier ones of those addresses. */
  lemma PassSucceeds(env: Env, escalations: Counters, events: seq<Event>, f: Faults)
    requires NoFaults(env, Worked(env, escalations, events), f)
    ensures var r := Pass(env, escalations, events, f);
      BlocksAreNew(env, r) && r.escalations.Some? &&
      (forall x, ip :: x in r.rateLimits && NewlyBlocked(env, r, ip) ==> !Contains(x.target, ip)) &&
      (forall ip :: NewlyBlocked(env, r, ip) ==> ip !in r.escalations.value) &&
      (forall c <- env.challenges :: c !in r.challenges <==> NewlyBlocked(env, r, c.ip))
  {
    var w, r := Worked(env, escalations, events), Pass(env, escalations, events, f);
    PassKeeps(env, escalations, events);
    AddedIs(env, w, f);
    hide RateLimitsAfter, OriginsOk, ChallengesOk, RateLimitsOk, HandleAll;
    assert Added(env, r) == w.blockAdditions;
    forall x, ip | x in r.rateLimits && NewlyBlocked(env, r, ip)
      ensures !Contains(x.target, ip)
    {
      var i :| 0 <= i < |w.blockAdditions| && w.blockAdditions[i].target == Exact(ip);
      NoLimitCoversBlocked(env, w, x, i);
    }
    forall c | c in env.challenges
      ensures c !in r.challenges <==> NewlyBlocked(env, r, c.ip)
    {
      RemovedIff(env, w, f, c);
    }
  }

  lemma {:induction false} MapHasChallenges(challenges: seq<ChallengeRecord>, ip: Address)
    ensures ip in ChallengeMap(challenges) <==> exists i :: 0 <= i < |challenges| && challenges[i].ip == ip
  {
    if challenges != [] {
      MapHasChallenges(challenges[..|challenges| - 1], ip);
    }
  }

  lemma RemovedIff(env: Env, w: Work, f: Faults, c: ChallengeRecord)
    requires RemovalsOk(env, w) && BlocksOk(env, w) && NoFaults(env, w, f) && c in env.challenges
    ensures c !in Finish(env, w, f).challenges <==> Exact(c.ip) in BlockTargets(w.blockAdditions)
  {
    MapHasChallenges(env.challenges, c.ip);
    var i :| 0 <= i < |env.challenges| && env.challenges[i] == c;
    assert c.ip in ChallengeMap(env.challenges);
    assert w.challengeRemovals * f.removable == w.challengeRemovals;
    if w.blockAdditions == [] {
      assert BlockTargets(w.blockAdditions) == {};
    }
  }

  // ----- When challenges cannot be created -----

  lemma {:induction false} FallbacksAre(fallbacks: seq<BlockRecord>, blocked: set<Target>)
    requires forall i, j :: 0 <= i < j < |fallbacks| ==> fallbacks[i].target != fallbacks[j].target
    ensures var r := NotYetBlocked(fallbacks, blocked);
      (forall b :: b in r <==> b in fallbacks && b.target !in blocked) &&
      forall i, j :: 0 <= i < j < |r| ==> r[i].target != r[j].target
  {
    if fallbacks != [] {
      var first, rest := fallbacks[0], fallbacks[1..];
      assert fallbacks == [first] + rest;
      assert forall b <- rest :: b.target != first.target;
      FallbacksAre(rest, blocked);
      FallbacksAre(rest, blocked + {first.target});
    }
  }

  /** How many of the new blocks are for the address. */
  function Times(blocks: seq<BlockRecord>, ip: Address): nat {
    if blocks == [] then 0 else (if blocks[0].target == Exact(ip) then 1 else 0) + Times(blocks[1..], ip)
  }

  lemma {:induction false} TimesOnce(blocks: seq<BlockRecord>, ip: Address)
    requires forall i, j :: 0 <= i < j < |blocks| ==> blocks[i].target != blocks[j].target
    ensures Times(blocks, ip) == if exists i :: 0 <= i < |blocks| && blocks[i].target == Exact(ip) then 1 else 0
  {
    if blocks != [] {
      TimesOnce(blocks[1..], ip);
      if i :| 0 <= i < |blocks| && blocks[i].target == Exact(ip) {
        assert i > 0 ==> blocks[1..][i - 1] == blocks[i];
      }
    }
  }

  lemma FallbackTargets(env: Env, w: Work, b: BlockRecord)
    requires BlocksOk(env, w) && ChallengesOk(env, w) && b in FallbackBlocks(w)
    ensures b.target.prefix == None && !InitiallyBlocked(env, b.target.address) && b.target !in BlockTargets(w.blockAdditions)
  {
    hide InitiallyBlocked;
    FallbacksAre(w.fallbacks, w.blockedIps);
    var k :| 0 <= k < |w.fallbacks| && w.fallbacks[k] == b;
  }

  lemma QueuedIsCovered(env: Env, w: Work, k: nat)
    requires BlocksOk(env, w) && ChallengesOk(env, w) && k < |w.requests|
    ensures var all := w.blockAdditions + FallbackBlocks(w);
      exists i :: 0 <= i < |all| && all[i].target == Exact(w.requests[k].ip)
  {
    hide InitiallyBlocked, NotYetBlocked;
    FallbacksAre(w.fallbacks, w.blockedIps);
    var b, extra, n := w.fallbacks[k], FallbackBlocks(w), |w.blockAdditions|;
    var all := w.blockAdditions + extra;
    if b.target in w.blockedIps {
      InitialTarget(env, w.requests[k].ip);
      var i :| 0 <= i < n && w.blockAdditions[i].target == b.target;
      assert all[i].target == b.target;
    } else {
      assert b in w.fallbacks;
      var i :| 0 <= i < |extra| && extra[i] == b;
      assert all[n + i] == b;
    }
  }

  lemma FallbackIsNew(env: Env, w: Work)
    requires BlocksOk(env, w) && ChallengesOk(env, w)
    ensures var all := w.blockAdditions + FallbackBlocks(w);
      (forall i :: 0 <= i < |all| ==> all[i].target.prefix == None && !InitiallyBlocked(env, all[i].target.address)) &&
      (forall i, j :: 0 <= i < j < |all| ==> all[i].target != all[j].target)
  {
    var extra, n := FallbackBlocks(w), |w.blockAdditions|;
    var all := w.blockAdditions + extra;
    FallbacksAre(w.fallbacks, w.blockedIps);
    hide ChallengesOk, InitiallyBlocked, NotYetBlocked;
    forall i | 0 <= i < |extra|
      ensures extra[i].target.prefix == None && !InitiallyBlocked(env, extra[i].target.address)
      ensures extra[i].target !in BlockTargets(w.blockAdditions)
    {
      FallbackTargets(env, w, extra[i]);
    }
    forall i, j | 0 <= i < j < |all|
      ensures all[i].target != all[j].target
    {
      if i < n <= j {
        assert extra[j - n].target !in BlockTargets(w.blockAdditions);
      } else if n <= i {
        assert extra[i - n].target != extra[j - n].target;
      }
    }
  }

  lemma InitialTarget(env: Env, ip: Address)
    ensures Exact(ip) in BlockTargets(env.blocks) ==> InitiallyBlocked(env, ip)
  {}

  /** When the challenges cannot be created, every address queued for one is blocked instead,
      exactly once. */
  lemma FailedChallengesBecomeBlocks(env: Env, escalations: Counters, events: seq<Event>, f: Faults, ip: Address)
    requires f.rateLimits && f.blocks && !ChallengesCreated(env, Worked(env, escalations, events), f)
    ensures var r := Pass(env, escalations, events, f);
      BlocksAreNew(env, r) && (Queued(Worked(env, escalations, events), ip) ==> Times(Added(env, r), ip) == 1) &&
      forall c <- r.challenges :: c in env.challenges
  {
    var w := Worked(env, escalations, events);
    PassKeeps(env, escalations, events);
    AddedIs(env, w, f);
    hide HandleAll, RateLimitsAfter;
    FallbackIsNew(env, w);
    if k :| 0 <= k < |w.requests| && w.requests[k].ip == ip {
      QueuedIsCovered(env, w, k);
    }
    assert FallbackBlocks(w) == [] || w.requests != [];
    assert FinalAdditions(env, w, f) == w.blockAdditions + FallbackBlocks(w) || w.requests == [];
    TimesOnce(FinalAdditions(env, w, f), ip);
  }

  // ----- Who is answered, and why -----

  lemma AdditionsCaused(env: Env, w: Work, events: seq<Event>, f: Faults)
    requires Sound(env, w, events)
    ensures forall i :: 0 <= i < |FinalAdditions(env, w, f)| ==> Caused(env, events, FinalAdditions(env, w, f)[i].target.address)
  {
    hide Caused, BlocksOk, RateLimitsOk, CountersOk, RemovalsOk;
    var all, n := FinalAdditions(env, w, f), |w.blockAdditions|;
    FallbacksFrom(w.fallbacks, w.blockedIps);
    forall i | 0 <= i < |all|
      ensures Caused(env, events, all[i].target.address)
    {
      if i >= n {
        assert all[i] == FallbackBlocks(w)[i - n] && all[i] in FallbackBlocks(w);
        var k :| 0 <= k < |w.fallbacks| && w.fallbacks[k] == all[i];
      }
    }
  }

  lemma {:induction false} FallbacksFrom(fallbacks: seq<BlockRecord>, blocked: set<Target>)
    ensures forall b <- NotYetBlocked(fallbacks, blocked) :: b in fallbacks
  {
    if fallbacks != [] {
      FallbacksFrom(fallbacks[1..], blocked);
      FallbacksFrom(fallbacks[1..], blocked + {fallbacks[0].target});
    }
  }

  /** An event of the batch from the address, resolved to an enforcing mode. */
  ghost predicate EnforcedEvent(env: Env, events: seq<Event>, ip: Address) {
    env.policy.autoBlockEnabled && Answerable(ip, env.trusted) &&
    exists k :: 0 <= k < |events| && events[k].ip == ip && Enforcing(EffectiveFor(env, events[k]).settings.mode)
  }

  lemma CausedIsEnforced(env: Env, hosts: seq<HostPolicy.Host>, groups: seq<Group>, events: seq<Event>, ip: Address)
    requires env.context == ContextOf(Entries(env.policy, hosts, groups)) && Caused(env, events, ip)
    ensures EnforcedEvent(env, events, ip)
  {
    var k :| 0 <= k < |events| && Causes(env, events[k], ip);
    EnabledIffEnforcing(env.policy, hosts, groups, events[k].host, events[k].path);
    assert Enforcing(EffectiveFor(env, events[k]).settings.mode);
  }

  /** Whatever fails, every block, challenge and rate limit of the pass is for a public,
      untrusted address with an event in the batch whose mode is protect or strict. */
  lemma OnlyEnforcedAnswered(env: Env, hosts: seq<HostPolicy.Host>, groups: seq<Group>, escalations: Counters,
                             events: seq<Event>, f: Faults)
    requires env.context == ContextOf(Entries(env.policy, hosts, groups))
    ensures var r := Pass(env, escalations, events, f);
      (forall i :: 0 <= i < |Added(env, r)| ==> EnforcedEvent(env, events, Added(env, r)[i].target.address)) &&
      (forall c <- r.challenges :: c !in env.challenges ==> EnforcedEvent(env, events, c.ip)) &&
      (forall x <- r.rateLimits :: x !in env.rateLimits ==> EnforcedEvent(env, events, x.target.address))
  {
    var w, r := Worked(env, escalations, events), Pass(env, escalations, events, f);
    PassKeeps(env, escalations, events);
    AdditionsCaused(env, w, events, f);
    assert OriginsOk(env, w, events);
    hide EnforcedEvent, Caused, HandleAll, BlocksOk, ChallengesOk, RateLimitsOk, RemovalsOk, CountersOk;
    forall ip | Caused(env, events, ip)
      ensures EnforcedEvent(env, events, ip)
    {
      CausedIsEnforced(env, hosts, groups, events, ip);
    }
    AddedAtMost(env, w, f);
    ChallengesAtMost(env, w, f);
    RateLimitsAtMost(env, w, f);
  }

  lemma AddedAtMost(env: Env, w: Work, f: Faults)
    ensures Added(env, Finish(env, w, f)) == [] || Added(env, Finish(env, w, f)) == FinalAdditions(env, w, f)
  {
    var additions := FinalAdditions(env, w, f);
    assert (env.blocks + additions)[|env.blocks|..] == additions;
  }

  lemma ChallengesAtMost(env: Env, w: Work, f: Faults)
    ensures forall c <- Finish(env, w, f).challenges :: c in env.challenges || exists i :: 0 <= i < |w.requests| && w.requests[i].ip == c.ip
  {
    forall c | c in Finish(env, w, f).challenges && c !in env.challenges
      ensures exists i :: 0 <= i < |w.requests| && w.requests[i].ip == c.ip
    {
      var i :| 0 <= i < |w.requests| && Created(w.requests, env.now)[i] == c;
    }
  }

  lemma RateLimitsAtMost(env: Env, w: Work, f: Faults)
    ensures forall x <- Finish(env, w, f).rateLimits :: x in env.rateLimits || x in w.rateLimitAdditions
  {}

  lemma NothingLeft(env: Env, hosts: seq<HostPolicy.Host>, groups: seq<Group>)
    requires env.context == ContextOf(Entries(env.policy, hosts, groups)) && NoInherit(env.policy.rules)
    ensures NothingInherits(env)
  {
    hide ContextOf, Entries, NoInherit;
    forall e: Event
      ensures NoInherit(EffectiveFor(env, e).settings.rules)
    {
      NothingLeftToInherit(env.policy, hosts, groups, e.host, e.path);
    }
  }

  lemma FinalJustified(env: Env, escalations: Counters, w: Work, events: seq<Event>, f: Faults)
    requires AllJustified(env, escalations, w.blockAdditions, events) && AllJustified(env, escalations, w.fallbacks, events)
    ensures AllJustified(env, escalations, FinalAdditions(env, w, f), events)
  {
    hide Justified, NotYetBlocked;
    FallbacksFrom(w.fallbacks, w.blockedIps);
    var all, n := FinalAdditions(env, w, f), |w.blockAdditions|;
    forall i | 0 <= i < |all|
      ensures Justified(env, escalations, events, all[i])
    {
      if i >= n {
        assert all[i] == FallbackBlocks(w)[i - n] && all[i] in FallbackBlocks(w);
        var k :| 0 <= k < |w.fallbacks| && w.fallbacks[k] == all[i];
      }
    }
  }

  lemma NoneJustified(env: Env, escalations: Counters, events: seq<Event>)
    ensures AllJustified(env, escalations, [], events)
  {}

  /** Whatever fails, each new block has an event of the batch that justifies it and fixes how
      long it lasts, also where it stands in for a challenge.  In particular no address is
      blocked over a running challenge within its grace period, except by a rule set to block,
      or by an escalation on a host that cannot be challenged. */
  lemma BlocksAreJustified(env: Env, hosts: seq<HostPolicy.Host>, groups: seq<Group>, escalations: Counters,
                           events: seq<Event>, f: Faults)
    requires env.context == ContextOf(Entries(env.policy, hosts, groups)) && NoInherit(env.policy.rules)
    ensures AllJustified(env, escalations, Added(env, Pass(env, escalations, events, f)), events)
  {
    hide AllJustified, HandleAll, Added, FinalAdditions, ContextOf, Entries, NoInherit, NothingInherits, Finish;
    NothingLeft(env, hosts, groups);
    var w := Worked(env, escalations, events);
    PassJustifies(env, escalations, events);
    FinalJustified(env, escalations, w, events, f);
    NoneJustified(env, escalations, events);
    AddedAtMost(env, w, f);
  }

  // ----- Young challenges -----

  /** At its turn a rule set to block matches the event, or the event escalates on a host that
      cannot be challenged. */
  ghost predicate OverridesGrace(env: Env, w: Work, e: Event) {
    var effective := EffectiveFor(env, e);
    (RuleForEvent(e).Some? && effective.settings.rules.Get(RuleForEvent(e).value) == Action.Block) ||
    (Escalates(env, w, e) && effective.proxyHostId.None?)
  }

  lemma YoungNotBlocked(env: Env, w: Work, b: BlockRecord, e: Event)
    requires JustifiedBy(env, w, b, e) && e.ip in ChallengeMap(env.challenges) && !GraceExpired(env, e)
    requires ChallengeMap(env.challenges).Keys <= w.challengedIps
    ensures OverridesGrace(env, w, e)
  {
    hide Resolve, GraceExpired, RuleForEvent, Escalates, AsksChallenge, Decide, StandingOf, AlreadyBlocked;
  }

  /** Over a whole pass an address whose challenge is younger than its grace period, at each of
      its events, is neither blocked nor relieved of the challenge by the autopilot: whatever
      fails, both need a rule set to block, or an escalation where no challenge is possible. */
  lemma GraceHolds(env: Env, hosts: seq<HostPolicy.Host>, groups: seq<Group>, escalations: Counters,
                   events: seq<Event>, f: Faults, c: ChallengeRecord)
    requires env.context == ContextOf(Entries(env.policy, hosts, groups)) && NoInherit(env.policy.rules)
    requires c in env.challenges && forall k :: 0 <= k < |events| && events[k].ip == c.ip ==> !GraceExpired(env, events[k])
    requires forall k :: 0 <= k < |events| && events[k].ip == c.ip ==>
      !OverridesGrace(env, Turn(env, escalations, events, k), events[k])
    ensures var r := Pass(env, escalations, events, f);
      !NewlyBlocked(env, r, c.ip) && c in r.challenges
  {
    hide HandleAll, ContextOf, Entries, NoInherit, GraceExpired, OverridesGrace, JustifiedBy, RateLimitsAfter, Turn;
    var w, r := Worked(env, escalations, events), Pass(env, escalations, events, f);
    BlocksAreJustified(env, hosts, groups, escalations, events, f);
    ChallengeIsMapped(env, c);
    forall i | 0 <= i < |Added(env, r)|
      ensures Added(env, r)[i].target != Exact(c.ip)
    {
      assert Justified(env, escalations, events, Added(env, r)[i]);
      var k :| 0 <= k < |events| && JustifiedBy(env, Turn(env, escalations, events, k), Added(env, r)[i], events[k]);
      var turn := Turn(env, escalations, events, k);
      JustifiedTarget(env, turn, Added(env, r)[i], events[k]);
      if events[k].ip == c.ip {
        KnownAtTurn(env, escalations, events, k);
        YoungNotBlocked(env, turn, Added(env, r)[i], events[k]);
      }
    }
    PassKeeps(env, escalations, events);
    StaysUnlessBlocked(env, w, events, f, c);
  }

  lemma KnownAtTurn(env: Env, escalations: Counters, events: seq<Event>, k: nat)
    requires k <= |events|
    ensures ChallengeMap(env.challenges).Keys <= Turn(env, escalations, events, k).challengedIps
  {
    hide HandleAll, Sound, ChallengeMap;
    PassKeeps(env, escalations, events[..k]);
    ChallengedAreKnown(env, Turn(env, escalations, events, k), events[..k]);
  }

  lemma JustifiedTarget(env: Env, w: Work, b: BlockRecord, e: Event)
    requires JustifiedBy(env, w, b, e)
    ensures b.target == Exact(e.ip)
  {
    hide AsksChallenge, Escalates, Resolve, GraceExpired, AlreadyBlocked;
  }

  lemma ChallengeIsMapped(env: Env, c: ChallengeRecord)
    requires c in env.challenges
    ensures c.ip in ChallengeMap(env.challenges)
  {
    MapHasChallenges(env.challenges, c.ip);
    var i :| 0 <= i < |env.challenges| && env.challenges[i] == c;
  }

  /** A challenge that is removed had its address blocked. */
  lemma StaysUnlessBlocked(env: Env, w: Work, events: seq<Event>, f: Faults, c: ChallengeRecord)
    requires Sound(env, w, events) && c in env.challenges
    ensures c !in Finish(env, w, f).challenges ==> NewlyBlocked(env, Finish(env, w, f), c.ip)
  {
    hide BlocksOk, CountersOk, ChallengesOk, RateLimitsOk, OriginsOk, RateLimitsAfter, ChangesRateLimits;
    var r := Finish(env, w, f);
    if c !in r.challenges {
      assert Exact(c.ip) in BlockTargets(w.blockAdditions);
      var i :| 0 <= i < |w.blockAdditions| && w.blockAdditions[i].target == Exact(c.ip);
      assert FinalAdditions(env, w, f)[i] == w.blockAdditions[i];
      AddedAtMost(env, w, f);
      assert r.blocks == env.blocks + FinalAdditions(env, w, f);
      assert Added(env, r)[i].target == Exact(c.ip);
    }
  }

  // ----- The lists of the loop -----

  /** The loop only adds to its sets of addresses. */
  ghost predicate Grows(w: Work, w': Work) {
    w.blockedIps <= w'.blockedIps && w.challengedIps <= w'.challengedIps && w.rateLimitByIp.Keys <= w'.rateLimitByIp.Keys
  }

  lemma HandleGrows(env: Env, w: Work, e: Event)
    ensures Grows(w, Handle(env, w, e))
  {
    hide Answerable, GraceExpired, Resolve, Escalation.Register, Confidence, RepeatBlocks, EffectiveFor, RuleForEvent, Decide,
      CrawlerCandidate, AutoBlockCandidate, AutoRateLimitCandidate, AlreadyBlocked, ActiveRateLimit;
  }
}
