/** Two passes that end otherwise than intended, on one proxy host with the name h. */
module MonitorExamples {
  import opened Wrappers
  import opened Timestamps
  import opened Texts
  import opened Arithmetic
  import opened Addresses
  import opened EndpointRules
  import opened HostPolicy
  import opened Autopilot
  import opened MonitorPass
  import opened MonitorProofs
  import opened MonitorResults
  import opened MonitorStacking
  import opened MonitorDelivery
  import Escalation

  const HOST := HostPolicy.Host(1, ["h"])
  const FIRST_IP := V4(0x0808_0808)
  const SECOND_IP := V4(0x0808_0809)

  function SettingsWith(rules: Rules): Settings {
    Settings(Strict, 45, 10, 90, 60, 10, 16, rules, [])
  }

  function PolicyWith(rules: Rules): Policy {
    Policy(true, 50, 10, 95, 60, rules, map[1 := SettingsWith(rules)])
  }

  function EnvWith(rules: Rules, rateLimits: seq<RateLimitRecord>, newId: nat -> string): Env {
    Env(PolicyWith(rules), ContextOf(Entries(PolicyWith(rules), [HOST], [])), [], Balanced,
      Escalation.Policy(3, 900_000, 60_000), 0, newId, [], rateLimits, [], [])
  }

  /** A probe for a critical file. */
  function Probe(ip: Address): Event {
    Event(ip, At(1), "h", "/", 55, [SensitiveFileProbe])
  }

  function Traversal(ip: Address): Event {
    Event(ip, At(2), "h", "/", 60, [PathTraversal])
  }

  /** All rules block, but for those about critical files. */
  function RulesFor(criticalFiles: Action): Rules {
    Rules(Action.Block, Action.Block, criticalFiles, Action.Block, Action.Block, Action.Block, Action.Block)
  }

  lemma NameOfHost()
    ensures NormalizeHostname("h") == "h"
  {
    assert Trim("h") == "h" && Lower("h") == "h";
  }

  lemma RulesStay(rules: Rules)
    requires NoInherit(rules)
    ensures HostEffective(HOST, PolicyWith(rules), []) == Effective(Some(1), true, SettingsWith(rules), None)
  {}

  lemma OneEntry(policy: Policy)
    ensures Entries(policy, [HOST], []) == [Entry("h", HostEffective(HOST, policy, []))]
  {
    hide HostEffective, NormalizeHostname;
    NameOfHost();
    assert [HOST][..0] == [] && ["h"][..0] == [];
    assert EntriesOf(["h"], HostEffective(HOST, policy, [])) == [Entry("h", HostEffective(HOST, policy, []))];
  }

  lemma OneName(e: Entry)
    requires e.name == "h"
    ensures UniqueNames([e]) && !IsWildcard(e.name)
  {}

  lemma HostResolves(rules: Rules)
    requires NoInherit(rules)
    ensures ForName(ContextOf(Entries(PolicyWith(rules), [HOST], [])), PolicyWith(rules), "h") ==
      Effective(Some(1), true, SettingsWith(rules), None)
  {
    hide HostEffective, NoInherit, ForName, ContextOf, Entries, UniqueNames, IsWildcard;
    RulesStay(rules);
    OneEntry(PolicyWith(rules));
    var e := Entry("h", HostEffective(HOST, PolicyWith(rules), []));
    OneName(e);
    ExactWins([e], PolicyWith(rules), e);
  }

  lemma EventResolves(env: Env, rules: Rules, e: Event)
    requires NoInherit(rules) && env.policy == PolicyWith(rules) && env.context == ContextOf(Entries(PolicyWith(rules), [HOST], []))
    requires e.host == "h"
    ensures EffectiveFor(env, e) == Effective(Some(1), true, SettingsWith(rules), None)
  {
    NameOfHost();
    HostResolves(rules);
    hide NormalizeHostname, ForName, ContextOf, Entries, NoInherit;
  }

  lemma BothPublic()
    ensures Answerable(FIRST_IP, []) && Answerable(SECOND_IP, [])
  {}

  lemma RulesOfEvents(ip: Address)
    ensures RuleForEvent(Probe(ip)) == Some(CriticalFiles) && RuleForEvent(Traversal(ip)) == Some(Exploit)
  {
    assert Probe(ip).signals[0] == SensitiveFileProbe && Traversal(ip).signals[0] == PathTraversal;
  }

  lemma ActionsOfEvents(env: Env, w: Work, criticalFiles: Action, rateLimits: seq<RateLimitRecord>, newId: nat -> string, ip: Address)
    requires env == EnvWith(RulesFor(criticalFiles), rateLimits, newId) && criticalFiles !in {Inherit, Action.Auto}
    requires ip == FIRST_IP || ip == SECOND_IP
    ensures RuleAction(env, w, Probe(ip)) == Some(criticalFiles) && RuleAction(env, w, Traversal(ip)) == Some(Action.Block)
    ensures EffectiveFor(env, Probe(ip)) == EffectiveFor(env, Traversal(ip)) ==
      Effective(Some(1), true, SettingsWith(RulesFor(criticalFiles)), None)
  {
    hide EffectiveFor, ContextOf, Entries, Decide, RuleForEvent, Answerable;
    EventResolves(env, RulesFor(criticalFiles), Probe(ip));
    EventResolves(env, RulesFor(criticalFiles), Traversal(ip));
    RulesOfEvents(ip);
    BothPublic();
  }

  /** With nothing active but rate limits, only what the events add is there. */
  lemma OnlyAdded(env: Env, events: seq<Event>)
    requires env.blocks == [] && env.challenges == []
    ensures var w := Worked(env, map[], events); w.blockedIps == BlockTargets(w.blockAdditions) && w.challengeRemovals == {}
    ensures Turn(env, map[], events, 0) == Start(env, map[])
  {
    hide HandleAll, Start;
    PassKeeps(env, map[], events);
    assert BlockTargets(env.blocks) == {};
    assert events[..0] == [];
    NothingHandled(env);
  }

  lemma NothingHandled(env: Env)
    ensures HandleAll(env, Start(env, map[]), []) == Start(env, map[])
  {}

  /** The probe comes first and starts no block; then the traversal attempt does. */
  lemma TwoTurns(env: Env, criticalFiles: Action, rateLimits: seq<RateLimitRecord>, newId: nat -> string, first: Address, second: Address)
    requires env == EnvWith(RulesFor(criticalFiles), rateLimits, newId) && criticalFiles in {Action.Challenge, Action.RateLimit}
    requires first == FIRST_IP && (second == FIRST_IP || second == SECOND_IP)
    ensures var events := [Probe(first), Traversal(second)];
      var w0, w1, w2 := Turn(env, map[], events, 0), Turn(env, map[], events, 1), Worked(env, map[], events);
      Reached(env, w0, Probe(first)) && RuleAction(env, w0, Probe(first)) == Some(criticalFiles) &&
      (StartsChallenge(env, w0, Probe(first)) <==> criticalFiles == Action.Challenge) && !StartsBlock(env, w0, Probe(first)) &&
      StartsBlock(env, w1, Traversal(second)) && !StartsChallenge(env, w1, Traversal(second)) &&
      w2.challengeRemovals == {} && |w2.requests| == if criticalFiles == Action.Challenge then 1 else 0
  {
    hide Handle, HandleAll, ContextOf, Entries, EffectiveFor, RuleAction, ChallengesFirst, Worked, Turn;
    var events := [Probe(first), Traversal(second)];
    var w0, w1 := Turn(env, map[], events, 0), Turn(env, map[], events, 1);
    OnlyAdded(env, events);
    ActionsOfEvents(env, w0, criticalFiles, rateLimits, newId, first);
    ActionsOfEvents(env, w1, criticalFiles, rateLimits, newId, second);
    TurnAfter(env, map[], events, 0);
    HandleAdds(env, w0, Probe(first));
    TurnIs(env, events, 1);
    OnlyAdded(env, events[..1]);
    assert BlockTargets(w1.blockAdditions) == {};
    TurnAfter(env, map[], events, 1);
    HandleAdds(env, w1, Traversal(second));
    TurnIs(env, events, 2);
    assert events[..2] == events;
  }

  lemma TurnIs(env: Env, events: seq<Event>, k: nat)
    requires k <= |events|
    ensures Turn(env, map[], events, k) == Worked(env, map[], events[..k])
  {}

  // ----- A challenge under a block -----

  /** Stacking does happen: the probe gets the address challenged, and the traversal attempt
      that follows in the same batch gets it blocked as well. */
  lemma StackingHappens(newId: nat -> string, f: Faults)
    requires f.rateLimits && f.challenges && f.blocks
    ensures var env := EnvWith(RulesFor(Action.Challenge), [], newId);
      Stacked(env, Pass(env, map[], [Probe(FIRST_IP), Traversal(FIRST_IP)], f), FIRST_IP)
  {
    hide StartsChallenge, StartsBlock, ContextOf, Entries, Worked, Turn, Finish, Stacked;
    var env, events := EnvWith(RulesFor(Action.Challenge), [], newId), [Probe(FIRST_IP), Traversal(FIRST_IP)];
    TwoTurns(env, Action.Challenge, [], newId, FIRST_IP, FIRST_IP);
    assert NoFaults(env, Worked(env, map[], events), f);
    assert ChallengedAt(env, map[], events, FIRST_IP, 0) && BlockedAt(env, map[], events, FIRST_IP, 1);
    StackedIff(env, map[], events, f, FIRST_IP);
  }

  // ----- A lost rate limit -----

  /** A rate limit on 256 addresses, both examples among them, entered by hand. */
  const RANGE := RateLimitRecord("range", Target(V4(0x0808_0800), Some(24)), Elsewhere("manual"), 60, 0, None)

  lemma RangeHolds()
    ensures Contains(RANGE.target, FIRST_IP) && Contains(RANGE.target, SECOND_IP) && !Contains(Exact(SECOND_IP), FIRST_IP)
  {
    assert Pow2(0) == 1 && Pow2(1) == 2 && Pow2(2) == 4 && Pow2(3) == 8 && Pow2(4) == 16;
    assert Pow2(5) == 32 && Pow2(6) == 64 && Pow2(7) == 128 && Pow2(8) == 256;
  }

  /** A decided rate limit does get lost: the probe is to be limited, and is, by the range; the
      traversal attempt of a neighbour gets the neighbour blocked and the whole range removed.
      The first address ends the pass neither limited nor blocked. */
  lemma RangeIsLost(newId: nat -> string, f: Faults)
    requires f.rateLimits && f.blocks
    ensures var env, events := EnvWith(RulesFor(Action.RateLimit), [RANGE], newId), [Probe(FIRST_IP), Traversal(SECOND_IP)];
      var r := Pass(env, map[], events, f);
      RuleAction(env, Turn(env, map[], events, 0), Probe(FIRST_IP)) == Some(Action.RateLimit) &&
      !LimitedBy(r.rateLimits, FIRST_IP) && !BlockedBy(r.blocks, FIRST_IP)
  {
    hide StartsChallenge, StartsBlock, ContextOf, Entries, Worked, Turn, Finish, RuleAction, Reached, EffectiveFor, Contains, Answerable;
    var env, events := EnvWith(RulesFor(Action.RateLimit), [RANGE], newId), [Probe(FIRST_IP), Traversal(SECOND_IP)];
    TwoTurns(env, Action.RateLimit, [RANGE], newId, FIRST_IP, SECOND_IP);
    RangeHolds();
    assert env.rateLimits[0] == RANGE && LostAt(env, map[], events, RANGE.target, 1);
    assert !LimitLeft(env, map[], events, FIRST_IP);
    EveryEventDelivered(env, map[], events, f, 0);
    OnlySecondBlocked(env, events, f);
  }

  lemma OnlySecondBlocked(env: Env, events: seq<Event>, f: Faults)
    requires env.blocks == [] && f.rateLimits && f.blocks && Worked(env, map[], events).requests == []
    requires |events| == 2 && events[1].ip == SECOND_IP && !StartsBlock(env, Turn(env, map[], events, 0), events[0])
    requires !Contains(Exact(SECOND_IP), FIRST_IP)
    ensures !BlockedBy(Pass(env, map[], events, f).blocks, FIRST_IP)
  {
    hide StartsBlock, Worked, Turn, Finish, Contains;
    var w, r := Worked(env, map[], events), Pass(env, map[], events, f);
    AddedIs(env, w, f);
    WorkedIs(env, map[], events);
    assert r.blocks == w.blockAdditions;
    AddedAreExact(env, map[], events);
    forall i | 0 <= i < |r.blocks|
      ensures r.blocks[i].target == Exact(SECOND_IP)
    {
      var ip := r.blocks[i].target.address;
      BlockedIff(env, map[], events, ip);
      var k :| 0 <= k < |events| && BlockedAt(env, map[], events, ip, k);
    }
  }
}
