/** What a pass decides for an event, and what of it is in force afterwards. */
module MonitorDelivery {
  import opened Wrappers
  import opened Addresses
  import opened HostPolicy
  import opened Autopilot
  import opened MonitorPass
  import opened MonitorProofs
  import opened MonitorResults
  import opened MonitorStacking

  // ----- In the loop -----

  /** A rule deals with the event, and its address is not blocked when its turn comes. */
  predicate Decides(env: Env, w: Work, e: Event) {
    Reached(env, w, e) && RuleAction(env, w, e).Some?
  }

  /** The lists of the loop hold what was decided for the event: its address is among the blocked,
      the challenged, or has a rate limit.  Off proxy hosts a challenge is not possible. */
  ghost predicate Listed(env: Env, before: Work, w: Work, e: Event) {
    Decides(env, before, e) ==>
      match RuleAction(env, before, e).value
      case Block => AlreadyBlocked(env, w, e.ip)
      case Challenge => EffectiveFor(env, e).proxyHostId.Some? ==> e.ip in w.challengedIps
      case RateLimit => ActiveRateLimit(env, w, e.ip).Some?
      case _ => true
  }

  lemma HandleLists(env: Env, w: Work, e: Event)
    ensures Listed(env, w, Handle(env, w, e), e)
  {
    hide Answerable, GraceExpired, Resolve, RuleForEvent, ActionFor, DecisionFor, ByThresholds;
  }

  lemma StaysListed(env: Env, before: Work, w: Work, w': Work, e: Event)
    requires Listed(env, before, w, e) && Grows(w, w')
    ensures Listed(env, before, w', e)
  {
    hide Resolve, RuleAction, Reached;
  }

  lemma {:induction false} EveryEventListed(env: Env, escalations: Counters, events: seq<Event>, k: nat)
    requires k < |events|
    ensures Listed(env, Turn(env, escalations, events, k), Worked(env, escalations, events), events[k])
  {
    hide Listed, Handle, Grows, Start;
    var n := |events| - 1;
    var before := Turn(env, escalations, events, n);
    LastTurn(env, escalations, events);
    if k == n {
      HandleLists(env, before, events[n]);
    } else {
      EveryEventListed(env, escalations, events[..n], k);
      HandleGrows(env, before, events[n]);
      assert Turn(env, escalations, events[..n], k) == Turn(env, escalations, events, k);
      StaysListed(env, Turn(env, escalations, events, k), before, Handle(env, before, events[n]), events[k]);
    }
  }

  lemma {:induction false} BlockedStaysListed(env: Env, escalations: Counters, events: seq<Event>, k: nat, ip: Address)
    requires k <= |events| && AlreadyBlocked(env, Turn(env, escalations, events, k), ip)
    ensures AlreadyBlocked(env, Worked(env, escalations, events), ip)
    decreases |events|
  {
    hide Handle, Start;
    if k == |events| {
      assert events[..k] == events;
    } else {
      var n := |events| - 1;
      LastTurn(env, escalations, events);
      assert Turn(env, escalations, events[..n], k) == Turn(env, escalations, events, k);
      BlockedStaysListed(env, escalations, events[..n], k, ip);
      HandleGrows(env, Turn(env, escalations, events, n), events[n]);
    }
  }

  // ----- After the pass -----

  predicate BlockedBy(blocks: seq<BlockRecord>, ip: Address) {
    exists i :: 0 <= i < |blocks| && (blocks[i].target == Exact(ip) || Contains(blocks[i].target, ip))
  }

  predicate ChallengedBy(challenges: seq<ChallengeRecord>, ip: Address) {
    exists i :: 0 <= i < |challenges| && challenges[i].ip == ip
  }

  predicate LimitedBy(rateLimits: seq<RateLimitRecord>, ip: Address) {
    exists i :: 0 <= i < |rateLimits| && Contains(rateLimits[i].target, ip)
  }

  /** Ids are random: no two active rate limits share one. */
  ghost predicate UniqueLimitIds(env: Env) {
    forall i, j :: 0 <= i < j < |env.rateLimits| ==> env.rateLimits[i].id != env.rateLimits[j].id
  }

  /** A block that one of the events starts takes the rate limit away. */
  ghost predicate Lost(env: Env, escalations: Counters, events: seq<Event>, t: Target) {
    exists k :: 0 <= k < |events| && LostAt(env, escalations, events, t, k)
  }

  ghost predicate LostAt(env: Env, escalations: Counters, events: seq<Event>, t: Target, k: nat)
    requires k < |events|
  {
    Contains(t, events[k].ip) && StartsBlock(env, Turn(env, escalations, events, k), events[k])
  }

  /** The rate limits that are left are those that no address blocked in the loop falls under. */
  lemma LimitsLeft(env: Env, w: Work, x: RateLimitRecord)
    requires UniqueLimitIds(env)
    ensures x in RateLimitsAfter(env, w) <==>
      (x in env.rateLimits || x in w.rateLimitAdditions) && !CoversAny(x.target, w.blockAdditions)
  {
    hide CoversAny;
    var removed := Covering(env.rateLimits, w.blockAdditions);
    if x in env.rateLimits && x !in removed {
      forall y | y in removed
        ensures y.id != x.id
      {
        var i :| 0 <= i < |env.rateLimits| && env.rateLimits[i] == x;
        var j :| 0 <= j < |env.rateLimits| && env.rateLimits[j] == y;
      }
    }
  }

  lemma LostIff(env: Env, escalations: Counters, events: seq<Event>, t: Target)
    ensures CoversAny(t, Worked(env, escalations, events).blockAdditions) <==> Lost(env, escalations, events, t)
  {
    hide Turn, StartsBlock, HandleAll, Worked, Contains, BlocksOk, CountersOk, ChallengesOk, RemovalsOk, RateLimitsOk;
    var w := Worked(env, escalations, events);
    AddedAreExact(env, escalations, events);
    if i :| 0 <= i < |w.blockAdditions| && Contains(t, w.blockAdditions[i].target.address) {
      var ip := w.blockAdditions[i].target.address;
      BlockedIff(env, escalations, events, ip);
      var k :| 0 <= k < |events| && BlockedAt(env, escalations, events, ip, k);
      assert LostAt(env, escalations, events, t, k);
    }
    if k :| 0 <= k < |events| && LostAt(env, escalations, events, t, k) {
      assert BlockedAt(env, escalations, events, events[k].ip, k);
      BlockedIff(env, escalations, events, events[k].ip);
    }
  }

  lemma AddedAreExact(env: Env, escalations: Counters, events: seq<Event>)
    ensures var w := Worked(env, escalations, events);
      forall i :: 0 <= i < |w.blockAdditions| ==> w.blockAdditions[i].target == Exact(w.blockAdditions[i].target.address)
  {
    hide HandleAll, InitiallyBlocked, CountersOk, ChallengesOk, RemovalsOk, RateLimitsOk, OriginsOk;
    PassKeeps(env, escalations, events);
  }

  // ----- Blocks and challenges -----

  lemma BlockedAfter(env: Env, w: Work, events: seq<Event>, f: Faults, ip: Address)
    requires f.rateLimits && f.blocks && Sound(env, w, events) && AlreadyBlocked(env, w, ip)
    ensures BlockedBy(Finish(env, w, f).blocks, ip)
  {
    hide Finish, Contains, CountersOk, ChallengesOk, RemovalsOk, RateLimitsOk, OriginsOk, InitiallyBlocked, FallbackBlocks;
    AddedIs(env, w, f);
    var blocks, n := Finish(env, w, f).blocks, |env.blocks|;
    assert blocks[..n] == env.blocks && blocks[n..] == FinalAdditions(env, w, f);
    if i :| 0 <= i < n && (env.blocks[i].target == Exact(ip) || Contains(env.blocks[i].target, ip)) {
      assert blocks[i] == env.blocks[i];
    } else {
      var i :| 0 <= i < |w.blockAdditions| && w.blockAdditions[i].target == Exact(ip);
      assert blocks[n + i] == blocks[n..][i] == w.blockAdditions[i];
    }
  }

  lemma NewlyBlockedIsBlocked(env: Env, r: PassResult, ip: Address)
    requires NewlyBlocked(env, r, ip)
    ensures BlockedBy(r.blocks, ip)
  {
    hide Contains;
    var i :| 0 <= i < |Added(env, r)| && Added(env, r)[i].target == Exact(ip);
    assert r.blocks[|env.blocks| + i] == Added(env, r)[i];
  }

  lemma FallbackBlocked(env: Env, w: Work, events: seq<Event>, f: Faults, ip: Address)
    requires f.rateLimits && f.blocks && Sound(env, w, events) && Queued(w, ip) && !ChallengesCreated(env, w, f)
    ensures NewlyBlocked(env, Finish(env, w, f), ip)
  {
    hide Finish, CountersOk, RemovalsOk, RateLimitsOk, OriginsOk, BlocksOk, ChallengesOk, InitiallyBlocked,
      ChallengesCreated, FallbackBlocks;
    var k :| 0 <= k < |w.requests| && w.requests[k].ip == ip;
    QueuedIsCovered(env, w, k);
    AddedIs(env, w, f);
  }

  /** A challenge of the loop is there after the pass, or its address is blocked. */
  lemma ChallengedAfter(env: Env, w: Work, events: seq<Event>, f: Faults, ip: Address)
    requires f.rateLimits && f.blocks && Sound(env, w, events) && ip in w.challengedIps
    ensures var r := Finish(env, w, f); ChallengedBy(r.challenges, ip) || BlockedBy(r.blocks, ip)
  {
    hide Finish, CountersOk, RateLimitsOk, OriginsOk, BlocksOk, RemovalsOk, InitiallyBlocked, ChallengesCreated, ChallengeMap, BlockedBy;
    var r := Finish(env, w, f);
    if ip in ChallengeMap(env.challenges) {
      MapHasChallenges(env.challenges, ip);
      var i :| 0 <= i < |env.challenges| && env.challenges[i].ip == ip;
      var c := env.challenges[i];
      assert c in env.challenges;
      StaysUnlessBlocked(env, w, events, f, c);
      KeptOrBlocked(env, r, c);
    } else if !ChallengesCreated(env, w, f) {
      FallbackBlocked(env, w, events, f, ip);
      NewlyBlockedIsBlocked(env, r, ip);
    } else {
      CreatedIsKept(env, w, f, ip);
    }
  }

  lemma KeptOrBlocked(env: Env, r: PassResult, c: ChallengeRecord)
    requires c !in r.challenges ==> NewlyBlocked(env, r, c.ip)
    ensures ChallengedBy(r.challenges, c.ip) || BlockedBy(r.blocks, c.ip)
  {
    hide BlockedBy, NewlyBlocked;
    if c in r.challenges {
      var i :| 0 <= i < |r.challenges| && r.challenges[i] == c;
    } else {
      NewlyBlockedIsBlocked(env, r, c.ip);
    }
  }

  lemma CreatedIsKept(env: Env, w: Work, f: Faults, ip: Address)
    requires f.rateLimits && f.blocks && ChallengesOk(env, w) && RemovalsOk(env, w) && ChallengesCreated(env, w, f)
    requires Queued(w, ip) && ip !in ChallengeMap(env.challenges)
    ensures ChallengedBy(Finish(env, w, f).challenges, ip)
  {
    hide RateLimitsAfter, ChangesRateLimits, InitiallyBlocked, ChallengeMap, FinalAdditions, ChallengesCreated;
    var r := Finish(env, w, f);
    var i :| 0 <= i < |w.requests| && w.requests[i].ip == ip;
    var c := Created(w.requests, env.now)[i];
    assert c in Created(w.requests, env.now) && c.ip == ip;
    assert c in env.challenges + Created(w.requests, env.now);
    assert c in r.challenges;
    var j :| 0 <= j < |r.challenges| && r.challenges[j] == c;
  }

  // ----- Rate limits -----

  lemma {:induction false} MapHasTargets(rateLimits: seq<RateLimitRecord>, t: Target)
    ensures t in RateLimitMap(rateLimits) <==> exists i :: 0 <= i < |rateLimits| && rateLimits[i].target == t
  {
    if rateLimits != [] {
      MapHasTargets(rateLimits[..|rateLimits| - 1], t);
    }
  }

  lemma {:induction false} FindsLimit(rateLimits: seq<RateLimitRecord>, ip: Address)
    ensures FindRateLimit(rateLimits, ip).Some? <==> LimitedBy(rateLimits, ip)
  {
    hide Contains;
    if rateLimits != [] {
      FindsLimit(rateLimits[1..], ip);
      if i :| 0 <= i < |rateLimits| && Contains(rateLimits[i].target, ip) {
        assert i > 0 ==> rateLimits[1..][i - 1] == rateLimits[i];
      }
      if i :| 0 <= i < |rateLimits[1..]| && Contains(rateLimits[1..][i].target, ip) {
        assert rateLimits[i + 1] == rateLimits[1..][i];
      }
    }
  }

  /** Two spellings of one address are in the same ranges. */
  lemma SameRanges(a: Address, ip: Address)
    requires Contains(Exact(a), ip)
    ensures forall t :: Contains(t, a) <==> Contains(t, ip)
    ensures forall z :: Contains(Exact(a), z) <==> Contains(Exact(ip), z)
  {}

  lemma ContainsItself(env: Env, ip: Address)
    requires Answerable(ip, env.trusted)
    ensures Contains(Exact(ip), ip)
  {}

  /** Some rate limit of the address is left at the end: one from before that no new block falls
      under, or, where there was none, its own, unless the address is blocked itself. */
  ghost predicate LimitLeft(env: Env, escalations: Counters, events: seq<Event>, ip: Address) {
    if LimitedBy(env.rateLimits, ip) then
      exists i :: 0 <= i < |env.rateLimits| && Contains(env.rateLimits[i].target, ip) &&
        !Lost(env, escalations, events, env.rateLimits[i].target)
    else !Lost(env, escalations, events, Exact(ip))
  }

  lemma LimitedMeans(env: Env, w: Work, ip: Address)
    requires UniqueLimitIds(env)
    ensures LimitedBy(RateLimitsAfter(env, w), ip) <==>
      (exists i :: 0 <= i < |env.rateLimits| && Contains(env.rateLimits[i].target, ip) &&
        !CoversAny(env.rateLimits[i].target, w.blockAdditions)) ||
      (exists i :: 0 <= i < |w.rateLimitAdditions| && Contains(w.rateLimitAdditions[i].target, ip) &&
        !CoversAny(w.rateLimitAdditions[i].target, w.blockAdditions))
  {
    hide Contains, CoversAny, UniqueLimitIds, RateLimitsAfter;
    var after := RateLimitsAfter(env, w);
    if i :| 0 <= i < |after| && Contains(after[i].target, ip) {
      var x := after[i];
      assert x in after;
      LimitsLeft(env, w, x);
      if x in env.rateLimits {
        var j :| 0 <= j < |env.rateLimits| && env.rateLimits[j] == x;
      } else {
        var j :| 0 <= j < |w.rateLimitAdditions| && w.rateLimitAdditions[j] == x;
      }
    }
    forall i | 0 <= i < |env.rateLimits| && Contains(env.rateLimits[i].target, ip) && !CoversAny(env.rateLimits[i].target, w.blockAdditions)
      ensures LimitedBy(after, ip)
    {
      LeftLimits(env, w, env.rateLimits[i], ip);
    }
    forall i | 0 <= i < |w.rateLimitAdditions| && Contains(w.rateLimitAdditions[i].target, ip) &&
      !CoversAny(w.rateLimitAdditions[i].target, w.blockAdditions)
      ensures LimitedBy(after, ip)
    {
      LeftLimits(env, w, w.rateLimitAdditions[i], ip);
    }
  }

  lemma LeftLimits(env: Env, w: Work, x: RateLimitRecord, ip: Address)
    requires UniqueLimitIds(env) && (x in env.rateLimits || x in w.rateLimitAdditions)
    requires Contains(x.target, ip) && !CoversAny(x.target, w.blockAdditions)
    ensures LimitedBy(RateLimitsAfter(env, w), ip)
  {
    hide Contains, CoversAny, UniqueLimitIds, RateLimitsAfter;
    LimitsLeft(env, w, x);
    var i :| 0 <= i < |RateLimitsAfter(env, w)| && RateLimitsAfter(env, w)[i] == x;
  }

  /** Where there was a limit already the loop adds none, and where there was none it has added
      one for the address itself. */
  lemma OwnLimit(env: Env, w: Work, events: seq<Event>, ip: Address)
    requires Sound(env, w, events) && Answerable(ip, env.trusted) && ActiveRateLimit(env, w, ip).Some?
    ensures forall i :: 0 <= i < |w.rateLimitAdditions| && Contains(w.rateLimitAdditions[i].target, ip) ==>
      !LimitedBy(env.rateLimits, ip) && forall z :: Contains(w.rateLimitAdditions[i].target, z) <==> Contains(Exact(ip), z)
    ensures LimitedBy(env.rateLimits, ip) || exists i :: 0 <= i < |w.rateLimitAdditions| && w.rateLimitAdditions[i].target == Exact(ip)
  {
    assert RateLimitsOk(env, w);
    hide Contains, Answerable, Sound, BlocksOk, CountersOk, ChallengesOk, RemovalsOk, OriginsOk, FindRateLimit, RateLimitMap;
    ContainsItself(env, ip);
    MapHasTargets(env.rateLimits, Exact(ip));
    FindsLimit(env.rateLimits, ip);
    forall i | 0 <= i < |w.rateLimitAdditions| && Contains(w.rateLimitAdditions[i].target, ip)
      ensures !LimitedBy(env.rateLimits, ip) && forall z :: Contains(w.rateLimitAdditions[i].target, z) <==> Contains(Exact(ip), z)
    {
      var a := w.rateLimitAdditions[i].target.address;
      assert w.rateLimitAdditions[i].target == Exact(a);
      SameRanges(a, ip);
      FindsLimit(env.rateLimits, a);
    }
  }

  lemma LimitedAfter(env: Env, escalations: Counters, events: seq<Event>, ip: Address)
    requires UniqueLimitIds(env) && Answerable(ip, env.trusted)
    requires ActiveRateLimit(env, Worked(env, escalations, events), ip).Some?
    ensures LimitedBy(RateLimitsAfter(env, Worked(env, escalations, events)), ip) <==> LimitLeft(env, escalations, events, ip)
  {
    hide Contains, Answerable, Sound, HandleAll, UniqueLimitIds, RateLimitsAfter, ActiveRateLimit, Lost, CoversAny, Worked;
    var w := Worked(env, escalations, events);
    PassKeeps(env, escalations, events);
    LimitedMeans(env, w, ip);
    WorkedIs(env, escalations, events);
    OwnLimit(env, w, events, ip);
    forall t
      ensures CoversAny(t, w.blockAdditions) <==> Lost(env, escalations, events, t)
    {
      LostIff(env, escalations, events, t);
    }
    ContainsItself(env, ip);
    forall i | 0 <= i < |w.rateLimitAdditions| && Contains(w.rateLimitAdditions[i].target, ip)
      ensures CoversAny(w.rateLimitAdditions[i].target, w.blockAdditions) <==> CoversAny(Exact(ip), w.blockAdditions)
    {
      CoversAlike(w.rateLimitAdditions[i].target, Exact(ip), w.blockAdditions);
    }
  }

  lemma WorkedIs(env: Env, escalations: Counters, events: seq<Event>)
    ensures Worked(env, escalations, events) == HandleAll(env, Start(env, escalations), events)
  {}

  lemma CoversAlike(t: Target, u: Target, blocks: seq<BlockRecord>)
    requires forall z :: Contains(t, z) <==> Contains(u, z)
    ensures CoversAny(t, blocks) <==> CoversAny(u, blocks)
  {
    hide Contains;
  }

  // ----- The result -----

  /** What the pass leaves for an event whose address was already blocked at its turn, or that a
      rule dealt with: a block is in force; a challenge is, or its address is blocked; a rate limit
      is exactly where one is left.  A challenge off proxy hosts, observing, and denying change
      nothing. */
  ghost predicate Delivered(env: Env, escalations: Counters, events: seq<Event>, r: PassResult, k: nat)
    requires k < |events|
  {
    var w, e := Turn(env, escalations, events, k), events[k];
    (AlreadyBlocked(env, w, e.ip) ==> BlockedBy(r.blocks, e.ip)) &&
    (Decides(env, w, e) ==>
      match RuleAction(env, w, e).value
      case Block => BlockedBy(r.blocks, e.ip)
      case Challenge =>
        if EffectiveFor(env, e).proxyHostId.Some? then ChallengedBy(r.challenges, e.ip) || BlockedBy(r.blocks, e.ip)
        else Handle(env, w, e) == w
      case RateLimit => LimitedBy(r.rateLimits, e.ip) <==> LimitLeft(env, escalations, events, e.ip)
      case _ => Handle(env, w, e) == w)
  }

  lemma NothingStarted(env: Env, w: Work, e: Event)
    requires Decides(env, w, e)
    requires var action := RuleAction(env, w, e).value;
      action in {ObserveOnly, Action.Deny, Action.Auto} || (action == Action.Challenge && EffectiveFor(env, e).proxyHostId.None?)
    ensures Handle(env, w, e) == w
  {
    hide Resolve, RuleForEvent, Answerable, ActionFor, DecisionFor, AlreadyBlocked, ByThresholds, ActiveRateLimit;
  }

  lemma DecidedIsAnswerable(env: Env, w: Work, e: Event)
    requires Decides(env, w, e)
    ensures Answerable(e.ip, env.trusted) && RuleAction(env, w, e).value != Inherit
  {
    hide Answerable, Resolve, RuleForEvent, ActionFor, AlreadyBlocked;
  }

  /** After a pass whose block and rate-limit commits work, whatever becomes of its challenges,
      what was configured or decided by the autopilot for every event is in force as far as the
      pass lets it: only a rate limit can get lost, to a block of another address in its range. */
  lemma EveryEventDelivered(env: Env, escalations: Counters, events: seq<Event>, f: Faults, k: nat)
    requires k < |events| && f.rateLimits && f.blocks && UniqueLimitIds(env)
    ensures Delivered(env, escalations, events, Pass(env, escalations, events, f), k)
  {
    hide Turn, Handle, HandleAll, Sound, Finish, AlreadyBlocked, RuleAction, Reached, UniqueLimitIds, BlockedBy, ChallengedBy, LimitedBy,
      LimitLeft, EffectiveFor, Answerable, ActiveRateLimit;
    var w, r := Worked(env, escalations, events), Pass(env, escalations, events, f);
    var before, e := Turn(env, escalations, events, k), events[k];
    PassKeeps(env, escalations, events);
    EveryEventListed(env, escalations, events, k);
    if AlreadyBlocked(env, before, e.ip) {
      BlockedStaysListed(env, escalations, events, k, e.ip);
    }
    if AlreadyBlocked(env, w, e.ip) {
      BlockedAfter(env, w, events, f, e.ip);
    }
    if e.ip in w.challengedIps {
      ChallengedAfter(env, w, events, f, e.ip);
    }
    if Decides(env, before, e) {
      DecidedIsAnswerable(env, before, e);
      if ActiveRateLimit(env, w, e.ip).Some? {
        LimitedAfter(env, escalations, events, e.ip);
        LimitsOfResult(env, w, f);
      }
      var action := RuleAction(env, before, e).value;
      if action in {ObserveOnly, Action.Deny, Action.Auto} || (action == Action.Challenge && EffectiveFor(env, e).proxyHostId.None?) {
        NothingStarted(env, before, e);
      }
    }
  }

  lemma LimitsOfResult(env: Env, w: Work, f: Faults)
    requires f.rateLimits && f.blocks
    ensures Finish(env, w, f).rateLimits == RateLimitsAfter(env, w)
  {}

  /** So a decided rate limit that is missing after the pass has its address blocked, or was one
      from before over a range, as were all that held for the address, and each of these lost to
      a new block inside it. */
  lemma MissingLimitMeans(env: Env, escalations: Counters, events: seq<Event>, f: Faults, k: nat)
    requires k < |events| && f.rateLimits && f.blocks && UniqueLimitIds(env)
    requires Decides(env, Turn(env, escalations, events, k), events[k])
    requires RuleAction(env, Turn(env, escalations, events, k), events[k]) == Some(Action.RateLimit)
    ensures var r, ip := Pass(env, escalations, events, f), events[k].ip;
      LimitedBy(r.rateLimits, ip) || BlockedBy(r.blocks, ip) ||
      (LimitedBy(env.rateLimits, ip) && forall i :: 0 <= i < |env.rateLimits| && Contains(env.rateLimits[i].target, ip) ==>
        Lost(env, escalations, events, env.rateLimits[i].target))
  {
    hide Turn, HandleAll, Sound, Finish, RuleAction, Reached, UniqueLimitIds, BlockedBy, LimitedBy, Contains, Worked, Lost;
    var ip := events[k].ip;
    EveryEventDelivered(env, escalations, events, f, k);
    if !LimitedBy(env.rateLimits, ip) && Lost(env, escalations, events, Exact(ip)) {
      OwnLimitLost(env, escalations, events, f, ip);
    }
  }

  lemma OwnLimitLost(env: Env, escalations: Counters, events: seq<Event>, f: Faults, ip: Address)
    requires f.rateLimits && f.blocks && Lost(env, escalations, events, Exact(ip))
    ensures BlockedBy(Pass(env, escalations, events, f).blocks, ip)
  {
    hide Turn, HandleAll, Finish, StartsBlock, Contains, BlocksOk, CountersOk, ChallengesOk, RemovalsOk, RateLimitsOk, OriginsOk;
    var k :| 0 <= k < |events| && LostAt(env, escalations, events, Exact(ip), k);
    var a, w := events[k].ip, Worked(env, escalations, events);
    assert BlockedAt(env, escalations, events, a, k);
    BlockedIff(env, escalations, events, a);
    var i :| 0 <= i < |w.blockAdditions| && w.blockAdditions[i].target == Exact(a);
    AddedIs(env, w, f);
    var blocks := Finish(env, w, f).blocks;
    assert blocks[|env.blocks| + i] == blocks[|env.blocks|..][i] == w.blockAdditions[i];
    SameAddress(ip, a);
  }

  lemma SameAddress(ip: Address, a: Address)
    requires Contains(Exact(ip), a)
    ensures Contains(Exact(a), ip)
  {}
}
