/** One pass of the threat monitor: a batch of new events becomes blocks, rate limits,
    challenges and escalation strikes.  This module holds what the pass computes; the class
    that computes it step by step and the properties of the result are in modules of their own. */
module MonitorPass {
  import opened Wrappers
  import opened Sequences
  import opened Addresses
  import opened HostPolicy
  import opened Autopilot
  import Challenges
  import Escalation

  const CHALLENGE_GRACE_MS: int := 30_000
  const AUTOPILOT_REPEAT_WINDOW_MS: int := 24 * 60 * 60 * 1000
  const MAX_MINUTES: int := 43_200

  /** Why a response was started; `hadChallenge` tells whether a challenge came before. */
  datatype Origin =
    | ByAutopilot(key: RuleKey)
    | ByRule(key: RuleKey)
    | ByCrawlerAttack
    | ByHighConfidence(hadChallenge: bool)
    | ByEscalation(hadChallenge: bool)
    | BySoftLimit
    | ChallengeUnavailable(challenge: Origin)
    | Elsewhere(source: string)

  datatype BlockRecord = BlockRecord(id: string, target: Target, origin: Origin, minutes: int, decision: Option<Decision>)

  datatype RateLimitRecord = RateLimitRecord(id: string, target: Target, origin: Origin, minutes: int,
                                             createdAt: int, decision: Option<Decision>)

  datatype ChallengeRecord = ChallengeRecord(ip: Address, createdAt: Option<int>, minutes: int, difficulty: int, origin: Origin)

  datatype ChallengeRequest = ChallengeRequest(ip: Address, minutes: int, difficulty: int, origin: Origin, decision: Option<Decision>)

  /** An entry of the response log. */
  datatype ActionRecord = ActionRecord(startedBlock: bool, ip: Address, at: Option<int>)

  /** Everything the pass reads: the policy, the clock, and the active responses. */
  datatype Env = Env(policy: Policy, context: Context, trusted: seq<Target>, profile: Profile,
                     escalation: Escalation.Policy, now: int, newId: nat -> string,
                     blocks: seq<BlockRecord>, rateLimits: seq<RateLimitRecord>,
                     challenges: seq<ChallengeRecord>, actions: seq<ActionRecord>)

  /** The sets, maps and lists the pass builds up. */
  datatype Work = Work(blockedIps: set<Target>, rateLimitByIp: map<Target, RateLimitRecord>, challengedIps: set<Address>,
                       blockAdditions: seq<BlockRecord>, rateLimitAdditions: seq<RateLimitRecord>,
                       requests: seq<ChallengeRequest>, fallbacks: seq<BlockRecord>,
                       challengeRemovals: set<Address>, escalations: map<Address, Escalation.State>, ids: nat)

  // ----- What is active at the start -----

  function BlockTargets(blocks: seq<BlockRecord>): set<Target> {
    set i | 0 <= i < |blocks| :: blocks[i].target
  }

  function RateLimitMap(rateLimits: seq<RateLimitRecord>): map<Target, RateLimitRecord> {
    if rateLimits == [] then map[]
    else
      var r := rateLimits[|rateLimits| - 1];
      RateLimitMap(rateLimits[..|rateLimits| - 1])[r.target := r]
  }

  function ChallengeMap(challenges: seq<ChallengeRecord>): map<Address, ChallengeRecord> {
    if challenges == [] then map[]
    else
      var c := challenges[|challenges| - 1];
      ChallengeMap(challenges[..|challenges| - 1])[c.ip := c]
  }

  function Start(env: Env, escalations: map<Address, Escalation.State>): Work {
    Work(BlockTargets(env.blocks), RateLimitMap(env.rateLimits), ChallengeMap(env.challenges).Keys,
      [], [], [], [], {}, escalations, 0)
  }

  function FindRateLimit(rateLimits: seq<RateLimitRecord>, ip: Address): Option<RateLimitRecord> {
    if rateLimits == [] then None
    else if Contains(rateLimits[0].target, ip) then Some(rateLimits[0])
    else FindRateLimit(rateLimits[1..], ip)
  }

  function ActiveRateLimit(env: Env, w: Work, ip: Address): Option<RateLimitRecord> {
    if Exact(ip) in w.rateLimitByIp then Some(w.rateLimitByIp[Exact(ip)]) else FindRateLimit(env.rateLimits, ip)
  }

  predicate AlreadyBlocked(env: Env, w: Work, ip: Address) {
    Exact(ip) in w.blockedIps || exists i :: 0 <= i < |env.blocks| && Contains(env.blocks[i].target, ip)
  }

  function EventTime(env: Env, e: Event): int {
    Escalation.EventTime(e.timestamp, env.now)
  }

  /** The challenge of the address has been active for the grace period when the event came. */
  predicate GraceExpired(env: Env, e: Event) {
    var challenges := ChallengeMap(env.challenges);
    e.ip in challenges && challenges[e.ip].createdAt.Some? &&
    EventTime(env, e) - challenges[e.ip].createdAt.value >= CHALLENGE_GRACE_MS
  }

  function RepeatBlocks(actions: seq<ActionRecord>, ip: Address, now: int): nat {
    if actions == [] then 0
    else
      var a := actions[0];
      (if a.startedBlock && a.ip == ip && a.at.Some? && now - a.at.value <= AUTOPILOT_REPEAT_WINDOW_MS then 1 else 0) +
      RepeatBlocks(actions[1..], ip, now)
  }

  function EffectiveFor(env: Env, e: Event): Effective {
    Resolve(env.context, env.policy, e.host, e.path)
  }

  // ----- The responses -----

  function NewBlock(env: Env, w: Work, ip: Address, origin: Origin, minutes: int, decision: Option<Decision>): BlockRecord {
    BlockRecord(env.newId(w.ids), Exact(ip), origin, minutes, decision)
  }

  /** A block replaces an existing challenge and forgets the strikes. */
  function AddBlock(env: Env, w: Work, ip: Address, origin: Origin, minutes: int, decision: Option<Decision>): Work {
    w.(blockAdditions := w.blockAdditions + [NewBlock(env, w, ip, origin, minutes, decision)],
       blockedIps := w.blockedIps + {Exact(ip)},
       challengeRemovals := if ip in ChallengeMap(env.challenges) then w.challengeRemovals + {ip} else w.challengeRemovals,
       escalations := w.escalations - {ip},
       ids := w.ids + 1)
  }

  /** A challenge is requested together with the block to fall back to. */
  function QueueChallenge(env: Env, w: Work, ip: Address, settings: Settings, origin: Origin, decision: Option<Decision>): Work {
    w.(requests := w.requests + [ChallengeRequest(ip, settings.challengeMinutes, settings.challengeDifficulty, origin, decision)],
       fallbacks := w.fallbacks + [NewBlock(env, w, ip, ChallengeUnavailable(origin), settings.blockMinutes, decision)],
       challengedIps := w.challengedIps + {ip},
       escalations := w.escalations - {ip},
       ids := w.ids + 1)
  }

  function CounterView(r: RateLimitRecord): Escalation.RateLimit {
    Escalation.RateLimit(r.id, r.target, r.createdAt)
  }

  function AddRateLimit(env: Env, w: Work, ip: Address, origin: Origin, minutes: int, decision: Option<Decision>, counted: bool): Work {
    var r := RateLimitRecord(env.newId(w.ids), Exact(ip), origin, minutes, env.now, decision);
    w.(rateLimitAdditions := w.rateLimitAdditions + [r],
       rateLimitByIp := w.rateLimitByIp[Exact(ip) := r],
       escalations := if counted then w.escalations[ip := Escalation.CreateState(CounterView(r))] else w.escalations,
       ids := w.ids + 1)
  }

  // ----- One event -----

  function StandingOf(env: Env, w: Work, e: Event): Standing {
    var challenged := e.ip in ChallengeMap(env.challenges);
    Standing(ActiveRateLimit(env, w, e.ip).Some?, challenged, challenged && GraceExpired(env, e),
      RepeatBlocks(env.actions, e.ip, env.now))
  }

  function DecisionFor(env: Env, w: Work, e: Event, rules: Rules, key: RuleKey): Option<Decision> {
    if rules.Get(key) == Auto then Some(Decide(e, env.profile, StandingOf(env, w, e))) else None
  }

  function ActionFor(env: Env, w: Work, e: Event, rules: Rules, key: RuleKey): Action {
    match DecisionFor(env, w, e, rules, key)
    case Some(d) => d.action
    case None => rules.Get(key)
  }

  /** A recognised event at an address that may be answered. */
  function ByProtectionRule(env: Env, w: Work, e: Event, effective: Effective, key: RuleKey): Work {
    var s := effective.settings;
    var decision := DecisionFor(env, w, e, s.rules, key);
    var origin := if decision.Some? then ByAutopilot(key) else ByRule(key);
    var multiplier := if decision.Some? then decision.value.durationMultiplier else 1;
    match ActionFor(env, w, e, s.rules, key)
    case Block => AddBlock(env, w, e.ip, origin, Min(MAX_MINUTES, s.blockMinutes * multiplier), decision)
    case Challenge =>
      if effective.proxyHostId.Some? && e.ip !in w.challengedIps then QueueChallenge(env, w, e.ip, s, origin, decision) else w
    case RateLimit =>
      if ActiveRateLimit(env, w, e.ip).None? then
        AddRateLimit(env, w, e.ip, origin, Min(MAX_MINUTES, s.rateLimitMinutes * multiplier), decision, decision.Some?)
      else w
    case _ => w
  }

  /** Challenge first, and block only when a challenge has run its grace period; a host that
      cannot be challenged is blocked at once. */
  function ChallengeThenBlock(env: Env, w: Work, e: Event, effective: Effective, first: Origin, after: bool -> Origin): Work {
    if effective.proxyHostId.Some? && e.ip !in w.challengedIps then
      QueueChallenge(env, w, e.ip, effective.settings, first, None)
    else if effective.proxyHostId.Some? && e.ip in w.challengedIps && !GraceExpired(env, e) then w
    else AddBlock(env, w, e.ip, after(e.ip in ChallengeMap(env.challenges)), effective.settings.blockMinutes, None)
  }

  function Strike(env: Env, w: Work, e: Event, r: RateLimitRecord): Escalation.Verdict {
    Escalation.Register(Lookup(w.escalations, e.ip), CounterView(r), EventTime(env, e), env.escalation)
  }

  /** The older risk thresholds, for events no rule has dealt with. */
  function ByThresholds(env: Env, w: Work, e: Event, effective: Effective): Work {
    var s := effective.settings;
    if CrawlerCandidate(e, env.trusted, s.blockThreshold) then
      AddBlock(env, w, e.ip, ByCrawlerAttack, s.blockMinutes, None)
    else if AutoBlockCandidate(e, env.trusted, s.blockThreshold) then
      ChallengeThenBlock(env, w, e, effective, ByHighConfidence(false), had => ByHighConfidence(had))
    else if !AutoRateLimitCandidate(e, env.trusted, s.rateLimitThreshold) then w
    else
      match ActiveRateLimit(env, w, e.ip)
      case None => AddRateLimit(env, w, e.ip, BySoftLimit, s.rateLimitMinutes, None, true)
      case Some(r) =>
        if !r.origin.BySoftLimit? then w
        else
          var strike := Strike(env, w, e, r);
          var struck := w.(escalations := w.escalations[e.ip := strike.state]);
          if !strike.escalated then struck
          else ChallengeThenBlock(env, struck, e, effective, ByEscalation(false), had => ByEscalation(had))
  }

  function Handle(env: Env, w: Work, e: Event): Work {
    var effective := EffectiveFor(env, e);
    if !effective.autoBlockEnabled || AlreadyBlocked(env, w, e.ip) then w
    else if RuleForEvent(e).Some? && Answerable(e.ip, env.trusted) &&
      ActionFor(env, w, e, effective.settings.rules, RuleForEvent(e).value) != Inherit then
      ByProtectionRule(env, w, e, effective, RuleForEvent(e).value)
    else ByThresholds(env, w, e, effective)
  }

  function HandleAll(env: Env, w: Work, events: seq<Event>): Work {
    if events == [] then w else Handle(env, HandleAll(env, w, events[..|events| - 1]), events[|events| - 1])
  }

  type Counters = map<Address, Escalation.State>

  /** The work after a batch. */
  function Worked(env: Env, escalations: Counters, events: seq<Event>): Work {
    HandleAll(env, Start(env, escalations), events)
  }

  /** The work when the event with the given index has its turn. */
  function Turn(env: Env, escalations: Counters, events: seq<Event>, k: nat): Work
    requires k <= |events|
  {
    Worked(env, escalations, events[..k])
  }

  // ----- The end of the pass -----

  /** Which of the three commits work, and for which addresses a challenge can be removed. */
  datatype Faults = Faults(rateLimits: bool, challenges: bool, blocks: bool, removable: set<Address>)

  datatype PassResult = PassResult(rateLimits: seq<RateLimitRecord>, challenges: seq<ChallengeRecord>, blocks: seq<BlockRecord>,
                           escalations: Option<map<Address, Escalation.State>>)

  predicate CoversAny(t: Target, blocks: seq<BlockRecord>) {
    exists i :: 0 <= i < |blocks| && Contains(t, blocks[i].target.address)
  }

  function Covering(rateLimits: seq<RateLimitRecord>, blocks: seq<BlockRecord>): (r: seq<RateLimitRecord>)
    ensures forall x <- rateLimits :: CoversAny(x.target, blocks) ==> x in r
    ensures forall x <- r :: x in rateLimits && CoversAny(x.target, blocks)
  {
    if rateLimits == [] then []
    else
      var init, last := rateLimits[..|rateLimits| - 1], rateLimits[|rateLimits| - 1];
      assert rateLimits == init + [last];
      var r := Covering(init, blocks);
      if CoversAny(last.target, blocks) then r + [last] else r
  }

  function WithoutIds(rateLimits: seq<RateLimitRecord>, removed: seq<RateLimitRecord>): (r: seq<RateLimitRecord>)
    ensures forall x :: x in r <==> x in rateLimits && forall y <- removed :: y.id != x.id
  {
    if rateLimits == [] then []
    else
      var init, last := rateLimits[..|rateLimits| - 1], rateLimits[|rateLimits| - 1];
      assert rateLimits == init + [last];
      var r := WithoutIds(init, removed);
      if exists i :: 0 <= i < |removed| && removed[i].id == last.id then r else r + [last]
  }

  function NotCovering(rateLimits: seq<RateLimitRecord>, blocks: seq<BlockRecord>): (r: seq<RateLimitRecord>)
    ensures forall x :: x in r <==> x in rateLimits && !CoversAny(x.target, blocks)
  {
    if rateLimits == [] then []
    else
      var init, last := rateLimits[..|rateLimits| - 1], rateLimits[|rateLimits| - 1];
      assert rateLimits == init + [last];
      var r := NotCovering(init, blocks);
      if CoversAny(last.target, blocks) then r else r + [last]
  }

  predicate ChangesRateLimits(env: Env, w: Work) {
    w.rateLimitAdditions != [] || Covering(env.rateLimits, w.blockAdditions) != []
  }

  function RateLimitsAfter(env: Env, w: Work): seq<RateLimitRecord> {
    if !ChangesRateLimits(env, w) then env.rateLimits
    else
      WithoutIds(env.rateLimits, Covering(env.rateLimits, w.blockAdditions)) +
      NotCovering(w.rateLimitAdditions, w.blockAdditions)
  }

  /** The challenge store refuses a batch that would exceed its limit. */
  predicate ChallengesCreated(env: Env, w: Work, f: Faults) {
    f.challenges && |env.challenges| + |w.requests| <= Challenges.MAX_CHALLENGES
  }

  function Created(requests: seq<ChallengeRequest>, now: int): (r: seq<ChallengeRecord>)
    ensures |r| == |requests| && forall i :: 0 <= i < |r| ==> r[i].ip == requests[i].ip
  {
    seq(|requests|, i requires 0 <= i < |requests| =>
      ChallengeRecord(requests[i].ip, Some(now), requests[i].minutes, requests[i].difficulty, requests[i].origin))
  }

  /** Hard blocks for the queued addresses not blocked anyway. */
  function FallbackBlocks(w: Work): seq<BlockRecord> {
    NotYetBlocked(w.fallbacks, w.blockedIps)
  }

  function NotYetBlocked(fallbacks: seq<BlockRecord>, blocked: set<Target>): seq<BlockRecord> {
    if fallbacks == [] then []
    else if fallbacks[0].target in blocked then NotYetBlocked(fallbacks[1..], blocked)
    else [fallbacks[0]] + NotYetBlocked(fallbacks[1..], blocked + {fallbacks[0].target})
  }

  function FinalAdditions(env: Env, w: Work, f: Faults): seq<BlockRecord> {
    if w.requests != [] && !ChallengesCreated(env, w, f) then w.blockAdditions + FallbackBlocks(w) else w.blockAdditions
  }

  function WithoutIps(challenges: seq<ChallengeRecord>, ips: set<Address>): (r: seq<ChallengeRecord>)
    ensures forall c :: c in r <==> c in challenges && c.ip !in ips
  {
    if challenges == [] then []
    else
      var init, last := challenges[..|challenges| - 1], challenges[|challenges| - 1];
      assert challenges == init + [last];
      var r := WithoutIps(init, ips);
      if last.ip in ips then r else r + [last]
  }

  /** A failed commit of rate limits or blocks ends the pass there; the counters are then not
      written either. */
  function Finish(env: Env, w: Work, f: Faults): PassResult {
    var rateLimits := RateLimitsAfter(env, w);
    if ChangesRateLimits(env, w) && !f.rateLimits then PassResult(env.rateLimits, env.challenges, env.blocks, None)
    else
      var challenges := if ChallengesCreated(env, w, f) then env.challenges + Created(w.requests, env.now) else env.challenges;
      var additions := FinalAdditions(env, w, f);
      if additions == [] then PassResult(rateLimits, challenges, env.blocks, Some(w.escalations))
      else if !f.blocks then PassResult(rateLimits, challenges, env.blocks, None)
      else PassResult(rateLimits, WithoutIps(challenges, w.challengeRemovals * f.removable), env.blocks + additions, Some(w.escalations))
  }

  function Pass(env: Env, escalations: map<Address, Escalation.State>, events: seq<Event>, f: Faults): PassResult {
    Finish(env, HandleAll(env, Start(env, escalations), events), f)
  }
}
