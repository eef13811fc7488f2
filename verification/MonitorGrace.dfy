/** How long a challenge protects its address: half a minute from its creation, measured by the
    times of the events. */
module MonitorGrace {
  import opened Wrappers
  import opened Timestamps
  import opened Addresses
  import opened HostPolicy
  import opened Autopilot
  import opened MonitorPass
  import opened MonitorProofs
  import opened MonitorResults
  import opened MonitorStacking

  /** The challenge is the only one of its address. */
  ghost predicate OnlyChallenge(env: Env, c: ChallengeRecord) {
    c in env.challenges && forall d <- env.challenges :: d.ip == c.ip ==> d == c
  }

  /** When the event happened; one without a usable time happens now. */
  function Moment(env: Env, e: Event): int {
    if e.timestamp.At? && e.timestamp.ms != 0 then e.timestamp.ms else env.now
  }

  /** The challenge is known to have run for half a minute when the event happens. */
  predicate Ignored(env: Env, c: ChallengeRecord, e: Event) {
    c.createdAt.Some? && Moment(env, e) - c.createdAt.value >= 30_000
  }

  lemma {:induction false} MappedIsListed(challenges: seq<ChallengeRecord>, ip: Address)
    ensures ip in ChallengeMap(challenges) ==> ChallengeMap(challenges)[ip] in challenges && ChallengeMap(challenges)[ip].ip == ip
  {
    if challenges != [] {
      MappedIsListed(challenges[..|challenges| - 1], ip);
    }
  }

  lemma IgnoredIs(env: Env, c: ChallengeRecord, e: Event)
    requires OnlyChallenge(env, c) && e.ip == c.ip
    ensures GraceExpired(env, e) <==> Ignored(env, c, e)
  {
    ChallengeIsMapped(env, c);
    MappedIsListed(env.challenges, c.ip);
    hide ChallengeMap;
  }

  /** Over a whole pass, whatever fails: as long as none of its events comes half a minute or more
      after its challenge was created, an address is neither blocked nor relieved of the challenge
      by the autopilot. */
  lemma SafeForHalfAMinute(env: Env, hosts: seq<HostPolicy.Host>, groups: seq<Group>, escalations: Counters,
                           events: seq<Event>, f: Faults, c: ChallengeRecord)
    requires env.context == ContextOf(Entries(env.policy, hosts, groups)) && NoInherit(env.policy.rules) && OnlyChallenge(env, c)
    requires forall k :: 0 <= k < |events| && events[k].ip == c.ip ==>
      !Ignored(env, c, events[k]) && !OverridesGrace(env, Turn(env, escalations, events, k), events[k])
    ensures var r := Pass(env, escalations, events, f);
      !NewlyBlocked(env, r, c.ip) && c in r.challenges
  {
    hide GraceExpired, Ignored, OverridesGrace, Turn, Pass, NewlyBlocked, ContextOf, Entries, NoInherit;
    forall k | 0 <= k < |events| && events[k].ip == c.ip
      ensures !GraceExpired(env, events[k])
    {
      IgnoredIs(env, c, events[k]);
    }
    GraceHolds(env, hosts, groups, escalations, events, f, c);
  }

  /** With working commits, an address none of whose events comes that late is blocked exactly when
      one of them, at its turn, has a rule set to block or escalates where no challenge is possible. */
  lemma BlockedEarlierIff(env: Env, hosts: seq<HostPolicy.Host>, groups: seq<Group>, escalations: Counters,
                          events: seq<Event>, f: Faults, c: ChallengeRecord)
    requires env.context == ContextOf(Entries(env.policy, hosts, groups)) && NoInherit(env.policy.rules) && OnlyChallenge(env, c)
    requires forall k :: 0 <= k < |events| && events[k].ip == c.ip ==> !Ignored(env, c, events[k])
    requires f.rateLimits && f.blocks
    ensures NewlyBlocked(env, Pass(env, escalations, events, f), c.ip) <==>
      exists k :: 0 <= k < |events| && EndsGrace(env, escalations, events, c.ip, k)
  {
    hide GraceExpired, Ignored, EndsGrace, Pass, NewlyBlocked, ContextOf, Entries, NoInherit;
    forall k | 0 <= k < |events| && events[k].ip == c.ip
      ensures !GraceExpired(env, events[k])
    {
      IgnoredIs(env, c, events[k]);
    }
    GraceEndsIff(env, hosts, groups, escalations, events, f, c);
  }

  /** The blocks of the address that were started within the last day. */
  ghost function StartedToday(actions: seq<ActionRecord>, ip: Address, now: int): set<nat> {
    set i: nat | i < |actions| && actions[i].startedBlock && actions[i].ip == ip && actions[i].at.Some? &&
      actions[i].at.value >= now - 86_400_000
  }

  lemma {:induction false} LastRepeats(actions: seq<ActionRecord>, ip: Address, now: int)
    requires actions != []
    ensures var n := |actions| - 1;
      RepeatBlocks(actions, ip, now) == RepeatBlocks(actions[..n], ip, now) + RepeatBlocks([actions[n]], ip, now)
  {
    var n := |actions| - 1;
    if n == 0 {
      assert actions == [actions[0]];
    } else {
      LastRepeats(actions[1..], ip, now);
      assert actions[1..][..n - 1] == actions[..n][1..];
    }
  }

  /** These are the repetitions the autopilot counts. */
  lemma {:induction false} RepeatsAreOfToday(actions: seq<ActionRecord>, ip: Address, now: int)
    ensures RepeatBlocks(actions, ip, now) == |StartedToday(actions, ip, now)|
  {
    if actions != [] {
      var n := |actions| - 1;
      var before, all := StartedToday(actions[..n], ip, now), StartedToday(actions, ip, now);
      LastRepeats(actions, ip, now);
      RepeatsAreOfToday(actions[..n], ip, now);
      assert all == before + if n in all then {n} else {};
    }
  }

  /** The autopilot decides on the event: it is recognised, of an address that may be answered, and
      the rule for it leaves the answer to the autopilot. */
  predicate LeftToAutopilot(env: Env, e: Event) {
    Answerable(e.ip, env.trusted) && RuleForEvent(e).Some? && EffectiveFor(env, e).settings.rules.Get(RuleForEvent(e).value) == Action.Auto
  }

  /** What the autopilot makes of the event of a challenged address past the half minute. */
  function ConfidenceAfter(env: Env, e: Event): int {
    Confidence(e, Standing(false, true, true, RepeatBlocks(env.actions, e.ip, env.now)))
  }

  /** The event gets the challenged address blocked, if it is not blocked yet. */
  predicate BreaksChallenge(env: Env, c: ChallengeRecord, e: Event) {
    EffectiveFor(env, e).autoBlockEnabled && Ignored(env, c, e) && ConfidenceAfter(env, e) >= ThresholdsOf(env.profile).challenge
  }

  lemma StartsBlockIff(env: Env, w: Work, c: ChallengeRecord, e: Event)
    requires OnlyChallenge(env, c) && e.ip == c.ip && LeftToAutopilot(env, e)
    ensures StartsBlock(env, w, e) <==> BreaksChallenge(env, c, e) && !AlreadyBlocked(env, w, e.ip)
  {
    hide EffectiveFor, GraceExpired, RuleForEvent, AlreadyBlocked, ActiveRateLimit, CrawlerCandidate, ChallengesFirst, Answerable,
      RepeatBlocks, ChallengeMap, Ignored, StrongSignals, OnlyChallenge;
    IgnoredIs(env, c, e);
    ChallengeKnown(env, c);
    ThresholdsRise(env.profile);
  }

  lemma ChallengeKnown(env: Env, c: ChallengeRecord)
    requires OnlyChallenge(env, c)
    ensures c.ip in ChallengeMap(env.challenges)
  {
    ChallengeIsMapped(env, c);
  }

  lemma ThresholdsRise(p: Profile)
    ensures ThresholdsOf(p).challenge <= ThresholdsOf(p).block
  {}

  lemma {:induction false} NotInListYet(env: Env, escalations: Counters, events: seq<Event>, ip: Address, k: nat)
    requires k <= |events| && !InitiallyBlocked(env, ip)
    ensures AlreadyBlocked(env, Turn(env, escalations, events, k), ip) <==>
      Exact(ip) in BlockTargets(Turn(env, escalations, events, k).blockAdditions)
  {
    hide HandleAll, Contains, CountersOk, ChallengesOk, RemovalsOk, RateLimitsOk, OriginsOk;
    PassKeeps(env, escalations, events[..k]);
  }

  lemma InitiallyStays(env: Env, escalations: Counters, events: seq<Event>, ip: Address, k: nat)
    requires k <= |events| && InitiallyBlocked(env, ip)
    ensures AlreadyBlocked(env, Turn(env, escalations, events, k), ip)
  {
    hide HandleAll, Contains, CountersOk, ChallengesOk, RemovalsOk, RateLimitsOk, OriginsOk;
    PassKeeps(env, escalations, events[..k]);
  }

  /** Where the autopilot decides on all its events, a challenged address that was not blocked before
      is blocked by the pass exactly when one of them comes half a minute or more after the
      challenge was created, with a confidence at the challenge threshold. */
  lemma BlockedAfterHalfAMinuteIff(env: Env, escalations: Counters, events: seq<Event>, f: Faults, c: ChallengeRecord)
    requires OnlyChallenge(env, c) && f.rateLimits && f.blocks
    requires forall k :: 0 <= k < |events| && events[k].ip == c.ip ==> LeftToAutopilot(env, events[k])
    ensures NewlyBlocked(env, Pass(env, escalations, events, f), c.ip) <==>
      !InitiallyBlocked(env, c.ip) && exists k :: 0 <= k < |events| && events[k].ip == c.ip && BreaksChallenge(env, c, events[k])
  {
    hide HandleAll, OnlyChallenge, LeftToAutopilot, BreaksChallenge, StartsBlock, AlreadyBlocked, InitiallyBlocked, Turn, NewlyBlocked,
      Finish, BlocksOk, CountersOk, ChallengesOk, RemovalsOk, RateLimitsOk, OriginsOk, ChallengeMap, BlockTargets;
    ChallengeKnown(env, c);
    PassKeeps(env, escalations, events);
    ChallengedBlockIff(env, Worked(env, escalations, events), f, c.ip);
    BlockedIff(env, escalations, events, c.ip);
    forall k | 0 <= k < |events| && events[k].ip == c.ip
      ensures BlockedAt(env, escalations, events, c.ip, k) <==>
        BreaksChallenge(env, c, events[k]) && !AlreadyBlocked(env, Turn(env, escalations, events, k), c.ip)
    {
      StartsBlockIff(env, Turn(env, escalations, events, k), c, events[k]);
    }
    forall k | 0 <= k < |events| && events[k].ip == c.ip && BreaksChallenge(env, c, events[k])
      ensures if InitiallyBlocked(env, c.ip) then !BlockedAt(env, escalations, events, c.ip, k)
        else exists j :: 0 <= j < |events| && BlockedAt(env, escalations, events, c.ip, j)
    {
      if InitiallyBlocked(env, c.ip) {
        InitiallyStays(env, escalations, events, c.ip, k);
      } else if !BlockedAt(env, escalations, events, c.ip, k) {
        NotInListYet(env, escalations, events, c.ip, k);
        BlockedBefore(env, escalations, events, c.ip, k);
      }
    }
  }

  lemma BlockedBefore(env: Env, escalations: Counters, events: seq<Event>, ip: Address, k: nat)
    requires k < |events| && Exact(ip) in BlockTargets(Turn(env, escalations, events, k).blockAdditions)
    ensures exists j :: 0 <= j < |events| && BlockedAt(env, escalations, events, ip, j)
  {
    hide HandleAll, StartsBlock, Start;
    BlockedIff(env, escalations, events[..k], ip);
    var j :| 0 <= j < k && BlockedAt(env, escalations, events[..k], ip, j);
    assert events[..k][..j] == events[..j];
    assert BlockedAt(env, escalations, events, ip, j);
  }
}
