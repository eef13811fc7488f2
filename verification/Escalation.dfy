/** Escalation strikes: how often an address under a soft restriction attacks again.  Strikes
    are counted at least a cooldown apart and forgotten after a window. */
module Escalation {
  import opened Wrappers
  import opened Sequences
  import opened Timestamps
  import opened Addresses
  import opened Arithmetic

  datatype Policy = Policy(hits: int, windowMs: int, cooldownMs: int)

  /** What the policy normaliser guarantees: 2..20 hits, 1..1440 minutes, 5..3600 seconds. */
  predicate ValidPolicy(p: Policy) {
    2 <= p.hits <= 20 && 60_000 <= p.windowMs <= 86_400_000 && 5_000 <= p.cooldownMs <= 3_600_000
  }

  /** What a counter needs to know of a rate limit. */
  datatype RateLimit = RateLimit(id: string, target: Target, createdAt: int)

  datatype State = State(rateLimitId: string, target: Target, strikes: int, windowStartedAt: Stamp,
                         lastResponseAt: Stamp, lastStrikeAt: Stamp, updatedAt: Stamp)

  datatype Verdict = Verdict(counted: bool, escalated: bool, state: State)

  function CreateState(r: RateLimit): State {
    State(r.id, r.target, 0, At(r.createdAt), At(r.createdAt), Null, At(r.createdAt))
  }

  /** An event without a usable time counts as happening now; so does one at time zero. */
  function EventTime(timestamp: Stamp, now: int): int {
    match ParseTimestamp(timestamp)
    case Some(t) => if t == 0 then now else t
    case None => now
  }

  predicate Resets(state: Option<State>, rateLimit: RateLimit, time: int, policy: Policy) {
    state.None? || state.value.rateLimitId != rateLimit.id ||
    match ParseTimestamp(state.value.windowStartedAt)
    case None => true
    case Some(started) => time - started > policy.windowMs
  }

  function FreshState(r: RateLimit, time: int): State {
    State(r.id, r.target, 0, At(time), Null, Null, At(time))
  }

  /** The time the cooldown runs from.  The last strike is looked at first; where there is
      none yet its stamp is null, and null reads as the epoch, so the time of the response
      is never used. */
  function CooldownReference(s: State): Option<int> {
    match ParseTimestamp(s.lastStrikeAt)
    case Some(t) => Some(t)
    case None => ParseTimestamp(s.lastResponseAt)
  }

  function Register(state: Option<State>, rateLimit: RateLimit, time: int, policy: Policy): Verdict {
    var s := if Resets(state, rateLimit, time, policy) then FreshState(rateLimit, time) else state.value;
    var reference := CooldownReference(s);
    if reference.Some? && time - reference.value < policy.cooldownMs then Verdict(false, false, s)
    else
      var next := s.(strikes := s.strikes + 1, lastStrikeAt := At(time), updatedAt := At(time));
      Verdict(true, next.strikes >= policy.hits, next)
  }

  /** What pruning leaves of one state. */
  function PruneState(ip: Address, state: State, active: Option<RateLimit>, now: int, policy: Policy): Option<State> {
    if active.None? || state.rateLimitId != active.value.id then None
    else
      match ParseTimestamp(state.windowStartedAt)
      case None => None
      case Some(started) =>
        if now - started > policy.windowMs then None
        else Some(State(active.value.id, Exact(ip), Clamp(state.strikes, 0, 1000), At(started),
                        ReadBack(state.lastResponseAt, At(active.value.createdAt)),
                        ReadBack(state.lastStrikeAt, Null),
                        ReadBack(state.updatedAt, At(started))))
  }

  function Pruned(states: map<Address, State>, ip: Address, activeByIp: map<Target, RateLimit>, now: int, policy: Policy): Option<State> {
    if ip !in states then None
    else PruneState(ip, states[ip], Lookup(activeByIp, Exact(ip)), now, policy)
  }

  /** Its rate limit is in force and its window not over. */
  predicate StillActive(state: State, active: Option<RateLimit>, now: int, policy: Policy) {
    var started := ParseTimestamp(state.windowStartedAt);
    active.Some? && active.value.id == state.rateLimitId && started.Some? && now <= started.value + policy.windowMs
  }

  /** Strikes, window and last strike are the same; strikes are limited to 0..1000. */
  predicate SameCount(before: State, after: State) {
    after.rateLimitId == before.rateLimitId && 0 <= after.strikes <= 1000 &&
    (0 <= before.strikes <= 1000 ==> after.strikes == before.strikes) &&
    (before.strikes > 1000 ==> after.strikes == 1000) &&
    ParseTimestamp(after.windowStartedAt) == ParseTimestamp(before.windowStartedAt) &&
    (before.lastStrikeAt != Unreadable ==> ParseTimestamp(after.lastStrikeAt) == ParseTimestamp(before.lastStrikeAt)) &&
    (before.lastResponseAt != Unreadable ==> ParseTimestamp(after.lastResponseAt) == ParseTimestamp(before.lastResponseAt))
  }

  lemma PruneKeepsCount(ip: Address, state: State, active: Option<RateLimit>, now: int, policy: Policy)
    ensures var kept := PruneState(ip, state, active, now, policy);
      (kept.Some? <==> StillActive(state, active, now, policy)) && (kept.Some? ==> SameCount(state, kept.value))
  {}

  /** A stamp rewritten as a date, null included, or the given default. */
  function ReadBack(s: Stamp, default: Stamp): Stamp {
    match ParseTimestamp(s)
    case Some(t) => At(t)
    case None => default
  }

  /** The counters of all addresses. */
  class EscalationStates {
    var states: map<Address, State>

    constructor (states: map<Address, State>)
      ensures this.states == states
    {
      this.states := states;
    }

    method RegisterStrike(ip: Address, rateLimit: RateLimit, timestamp: Stamp, now: int, policy: Policy) returns (v: Verdict)
      modifies this
      ensures v == Register(Lookup(old(states), ip), rateLimit, EventTime(timestamp, now), policy)
      ensures states == old(states)[ip := v.state]
    {
      var eventTime := EventTime(timestamp, now);
      var state := Lookup(states, ip);
      if Resets(state, rateLimit, eventTime, policy) {
        state := Some(FreshState(rateLimit, eventTime));
      }
      var reference := CooldownReference(state.value);
      if reference.Some? && eventTime - reference.value < policy.cooldownMs {
        states := states[ip := state.value];
        return Verdict(false, false, state.value);
      }
      state := Some(state.value.(strikes := state.value.strikes + 1, lastStrikeAt := At(eventTime), updatedAt := At(eventTime)));
      states := states[ip := state.value];
      return Verdict(true, state.value.strikes >= policy.hits, state.value);
    }

    /** Keeps the counters of addresses whose rate limit is still active, as they were. */
    method Prune(activeByIp: map<Target, RateLimit>, now: int, policy: Policy)
      modifies this
      ensures forall ip :: ip in states <==>
        ip in old(states) && StillActive(old(states)[ip], Lookup(activeByIp, Exact(ip)), now, policy)
      ensures forall ip :: ip in states ==> ip in old(states) && SameCount(old(states)[ip], states[ip])
      ensures forall ip :: Lookup(states, ip) == Pruned(old(states), ip, activeByIp, now, policy)
    {
      var next: map<Address, State> := map[];
      var left := states.Keys;
      while left != {}
        invariant left <= states.Keys && states == old(states)
        invariant forall ip <- left :: ip !in next
        invariant forall ip :: ip !in left ==> Lookup(next, ip) == Pruned(states, ip, activeByIp, now, policy)
        decreases left
      {
        var ip :| ip in left;
        left := left - {ip};
        var kept := Pruned(states, ip, activeByIp, now, policy);
        if kept.Some? {
          next := next[ip := kept.value];
        }
      }
      forall ip | ip in states
        ensures ip in next <==> StillActive(states[ip], Lookup(activeByIp, Exact(ip)), now, policy)
        ensures ip in next ==> SameCount(states[ip], next[ip])
      {
        PruneKeepsCount(ip, states[ip], Lookup(activeByIp, Exact(ip)), now, policy);
        assert Lookup(next, ip) == Pruned(states, ip, activeByIp, now, policy);
      }
      assert forall ip :: ip in next ==> Lookup(next, ip) == Pruned(states, ip, activeByIp, now, policy);
      states := next;
    }
  }

  // ----- Whole runs for one address under a fixed policy -----

  /** A restriction begins; a stronger response replaces it and drops the counter; an attack
      arrives under an active restriction; the counters are pruned. */
  datatype Step =
    | Restrict(rateLimit: RateLimit)
    | Supersede
    | Attack(rateLimit: RateLimit, time: int)
    | Purge(ip: Address, active: Option<RateLimit>, now: int)

  /** The state together with the times of the strikes it stands for, and whether the last
      step escalated. */
  datatype Trace = Trace(state: Option<State>, times: seq<int>, escalated: bool)

  function Next(t: Trace, step: Step, policy: Policy): Trace {
    match step
    case Restrict(r) => Trace(Some(CreateState(r)), [], false)
    case Supersede => Trace(None, [], false)
    case Attack(r, time) =>
      var v := Register(t.state, r, time, policy);
      var before := if Resets(t.state, r, time, policy) then [] else t.times;
      Trace(Some(v.state), if v.counted then before + [time] else before, v.escalated)
    case Purge(ip, active, now) =>
      if t.state.None? then t.(escalated := false)
      else
        var kept := PruneState(ip, t.state.value, active, now, policy);
        Trace(kept, if kept.Some? then t.times else [], false)
  }

  function Run(steps: seq<Step>, policy: Policy): Trace {
    if steps == [] then Trace(None, [], false)
    else Next(Run(steps[..|steps| - 1], policy), steps[|steps| - 1], policy)
  }

  function Started(s: State): int {
    ParseTimestamp(s.windowStartedAt).GetOr(0)
  }

  /** Strikes stand for their times, which are a cooldown apart and not after the window. */
  ghost predicate Consistent(t: Trace, policy: Policy) {
    (t.state.None? ==> t.times == []) &&
    (t.state.Some? ==>
      var s := t.state.value;
      ParseTimestamp(s.windowStartedAt).Some? && 0 <= s.strikes <= |t.times| &&
      (forall i, j :: 0 <= i < j < |t.times| ==> t.times[j] - t.times[i] >= (j - i) * policy.cooldownMs) &&
      (forall i :: 0 <= i < |t.times| ==> t.times[i] - Started(s) <= policy.windowMs) &&
      ParseTimestamp(s.lastStrikeAt) == if t.times == [] then Some(0) else Some(t.times[|t.times| - 1]))
  }

  /** The strikes counted fall into the window they are counted for. */
  ghost predicate InsideWindow(t: Trace, policy: Policy) {
    t.state.Some? ==> forall i :: 0 <= i < |t.times| ==> 0 <= t.times[i] - Started(t.state.value) <= policy.windowMs
  }

  /** An attack older than the window it is about to open the count of: no strike yet, and a
      window, normally the time of the restriction, that starts later than the event. */
  predicate Predates(t: Trace, step: Step, policy: Policy) {
    step.Attack? && !Resets(t.state, step.rateLimit, step.time, policy) && t.times == [] &&
    policy.cooldownMs <= step.time < Started(t.state.value)
  }

  lemma SpacingStep(times: seq<int>, time: int, cooldown: int)
    requires cooldown >= 0
    requires forall i, j :: 0 <= i < j < |times| ==> times[j] - times[i] >= (j - i) * cooldown
    requires times != [] ==> time - times[|times| - 1] >= cooldown
    ensures var r := times + [time];
      forall i, j :: 0 <= i < j < |r| ==> r[j] - r[i] >= (j - i) * cooldown
  {
    var n, r := |times|, times + [time];
    forall i, j | 0 <= i < j < |r|
      ensures r[j] - r[i] >= (j - i) * cooldown
    {
      if j == n && i < n - 1 {
        assert times[n - 1] - times[i] >= (n - 1 - i) * cooldown;
        assert (n - 1 - i) * cooldown + cooldown == (n - i) * cooldown;
      }
    }
  }

  /** The state an attack is counted in. */
  function Current(t: Trace, r: RateLimit, time: int, policy: Policy): Trace {
    if Resets(t.state, r, time, policy) then Trace(Some(FreshState(r, time)), [], false) else t
  }

  lemma CurrentIsConsistent(t: Trace, r: RateLimit, time: int, policy: Policy)
    requires ValidPolicy(policy) && Consistent(t, policy)
    ensures var c := Current(t, r, time, policy);
      c.state.Some? && Consistent(c, policy) && time - Started(c.state.value) <= policy.windowMs
  {}

  /** The trace with one strike more. */
  function Struck(t: Trace, time: int, escalated: bool): Trace
    requires t.state.Some?
  {
    var s := t.state.value;
    Trace(Some(s.(strikes := s.strikes + 1, lastStrikeAt := At(time), updatedAt := At(time))), t.times + [time], escalated)
  }

  lemma AttackIs(t: Trace, r: RateLimit, time: int, policy: Policy)
    ensures var c, n := Current(t, r, time, policy), Next(t, Attack(r, time), policy);
      c.state.Some? &&
      if CooldownReference(c.state.value).Some? && time - CooldownReference(c.state.value).value < policy.cooldownMs
      then n == c.(escalated := n.escalated)
      else n == Struck(c, time, n.escalated)
  {}

  lemma StrikeKeepsConsistent(t: Trace, time: int, escalated: bool, policy: Policy)
    requires ValidPolicy(policy) && t.state.Some? && Consistent(t, policy)
    requires time - Started(t.state.value) <= policy.windowMs
    requires CooldownReference(t.state.value).Some? && time - CooldownReference(t.state.value).value >= policy.cooldownMs
    ensures Consistent(Struck(t, time, escalated), policy)
  {
    SpacingStep(t.times, time, policy.cooldownMs);
  }

  lemma ReferenceIsKnown(t: Trace, policy: Policy)
    requires Consistent(t, policy) && t.state.Some?
    ensures CooldownReference(t.state.value).Some?
  {}

  lemma EscalatedIsFree(t: Trace, escalated: bool, policy: Policy)
    requires Consistent(t, policy)
    ensures Consistent(t.(escalated := escalated), policy)
  {}

  lemma OthersKeepConsistent(t: Trace, step: Step, policy: Policy)
    requires ValidPolicy(policy) && Consistent(t, policy) && !step.Attack?
    ensures Consistent(Next(t, step, policy), policy)
  {}

  lemma StepKeepsConsistent(t: Trace, step: Step, policy: Policy)
    requires ValidPolicy(policy) && Consistent(t, policy)
    ensures Consistent(Next(t, step, policy), policy)
  {
    hide Consistent, Current, CooldownReference, Started, Next, Struck;
    if step.Attack? {
      AttackIs(t, step.rateLimit, step.time, policy);
      CurrentIsConsistent(t, step.rateLimit, step.time, policy);
      var c, n := Current(t, step.rateLimit, step.time, policy), Next(t, step, policy);
      ReferenceIsKnown(c, policy);
      if step.time - CooldownReference(c.state.value).value < policy.cooldownMs {
        EscalatedIsFree(c, n.escalated, policy);
      } else {
        StrikeKeepsConsistent(c, step.time, n.escalated, policy);
      }
    } else {
      OthersKeepConsistent(t, step, policy);
    }
  }

  lemma {:induction false} RunsStayConsistent(steps: seq<Step>, policy: Policy)
    requires ValidPolicy(policy)
    ensures Consistent(Run(steps, policy), policy)
  {
    if steps != [] {
      RunsStayConsistent(steps[..|steps| - 1], policy);
      StepKeepsConsistent(Run(steps[..|steps| - 1], policy), steps[|steps| - 1], policy);
    }
  }

  /** How many strikes fit, from the first one to the end of the window. */
  lemma StrikesFit(t: Trace, policy: Policy)
    requires ValidPolicy(policy) && Consistent(t, policy) && t.state.Some? && t.times != []
    ensures t.state.value.strikes <= 1 + (Started(t.state.value) + policy.windowMs - t.times[0]) / policy.cooldownMs
  {
    var n, c := |t.times|, policy.cooldownMs;
    var span := Started(t.state.value) + policy.windowMs - t.times[0];
    assert n > 1 ==> t.times[n - 1] - t.times[0] >= (n - 1) * c;
    assert (n - 1) * c <= span;
    QuotientBound(n - 1, c, span);
  }

  function StrikeBound(policy: Policy): int
    requires ValidPolicy(policy)
  {
    1 + policy.windowMs / policy.cooldownMs
  }

  /** Strikes inside their window obey the bound, and a higher threshold is never reached. */
  lemma InsideWindowBounded(t: Trace, policy: Policy)
    requires ValidPolicy(policy) && Consistent(t, policy) && InsideWindow(t, policy)
    ensures t.state.Some? ==> t.state.value.strikes <= StrikeBound(policy)
  {
    if t.state.Some? && t.times != [] {
      StrikesFit(t, policy);
      QuotientGrows(Started(t.state.value) + policy.windowMs - t.times[0], policy.windowMs, policy.cooldownMs);
    }
  }

  /** A step keeps the strikes inside their window exactly when it is not an attack that
      predates the window. */
  lemma StaysInsideIff(t: Trace, step: Step, policy: Policy)
    requires ValidPolicy(policy) && Consistent(t, policy) && InsideWindow(t, policy)
    ensures InsideWindow(Next(t, step, policy), policy) <==> !Predates(t, step, policy)
  {
    if step.Attack? {
      var n := Next(t, step, policy);
      var v := Register(t.state, step.rateLimit, step.time, policy);
      if v.counted && !Resets(t.state, step.rateLimit, step.time, policy) {
        assert n.times == t.times + [step.time];
        assert n.times[|t.times|] == step.time;
        assert t.times != [] ==> t.times[|t.times| - 1] - Started(t.state.value) >= 0;
      }
    }
  }

  /** No step of the run predates its window. */
  ghost predicate NonePredates(steps: seq<Step>, policy: Policy) {
    forall k :: 0 <= k < |steps| ==> !Predates(Run(steps[..k], policy), steps[k], policy)
  }

  /** In a run without such attacks, the strikes are always inside their window and bounded,
      and escalation is out of reach when the threshold exceeds the bound. */
  lemma {:induction false} RunsAreBounded(steps: seq<Step>, policy: Policy)
    requires ValidPolicy(policy) && NonePredates(steps, policy)
    ensures var t := Run(steps, policy);
      InsideWindow(t, policy) && (t.state.Some? ==> t.state.value.strikes <= StrikeBound(policy)) &&
      (policy.hits > StrikeBound(policy) ==> !t.escalated)
  {
    var t := Run(steps, policy);
    RunsStayConsistent(steps, policy);
    if steps != [] {
      var init := steps[..|steps| - 1];
      forall k | 0 <= k < |init|
        ensures !Predates(Run(init[..k], policy), init[k], policy)
      {
        assert init[..k] == steps[..k];
      }
      RunsAreBounded(init, policy);
      RunsStayConsistent(init, policy);
      StaysInsideIff(Run(init, policy), steps[|steps| - 1], policy);
    }
    InsideWindowBounded(t, policy);
  }

  // ----- When the bound can be exceeded -----

  /** Attacks at the given times, one after the other. */
  function Attacked(t: Trace, r: RateLimit, times: seq<int>, policy: Policy): Trace {
    if times == [] then t
    else Next(Attacked(t, r, times[..|times| - 1], policy), Attack(r, times[|times| - 1]), policy)
  }

  ghost predicate Exceeds(t: Trace, policy: Policy)
    requires ValidPolicy(policy)
  {
    t.state.Some? && t.state.value.strikes > StrikeBound(policy)
  }

  /** Still in the window of the restriction, and no strike is earlier than `from`. */
  ghost predicate InFirstWindow(t: Trace, r: RateLimit, from: int, policy: Policy) {
    t.state.Some? && t.state.value.rateLimitId == r.id && t.state.value.windowStartedAt == At(r.createdAt) &&
    Consistent(t, policy) && if t.times == [] then from <= policy.cooldownMs else from <= t.times[0]
  }

  /** In a window that an attack opened itself. */
  ghost predicate InLaterWindow(t: Trace, r: RateLimit, policy: Policy) {
    t.state.Some? && t.state.value.rateLimitId == r.id && Consistent(t, policy) && InsideWindow(t, policy) &&
    (t.times == [] ==> Started(t.state.value) < policy.cooldownMs)
  }

  lemma FirstWindowStep(t: Trace, r: RateLimit, from: int, time: int, policy: Policy)
    requires ValidPolicy(policy) && InFirstWindow(t, r, from, policy)
    ensures var n := Next(t, Attack(r, time), policy);
      InFirstWindow(n, r, from, policy) || InLaterWindow(n, r, policy)
  {
    hide Consistent;
    StepKeepsConsistent(t, Attack(r, time), policy);
    NoStrikeYet(t, policy);
    var n := Next(t, Attack(r, time), policy);
    if Resets(t.state, r, time, policy) {
      assert n.times == if time >= policy.cooldownMs then [time] else [];
      assert InsideWindow(n, policy);
    } else if t.times != [] {
      assert n.times[0] == t.times[0];
    }
  }

  lemma NoStrikeYet(t: Trace, policy: Policy)
    requires Consistent(t, policy)
    ensures t.state.Some? && t.times == [] ==> CooldownReference(t.state.value) == Some(0)
  {}

  lemma LaterWindowStep(t: Trace, r: RateLimit, time: int, policy: Policy)
    requires ValidPolicy(policy) && InLaterWindow(t, r, policy)
    ensures InLaterWindow(Next(t, Attack(r, time), policy), r, policy)
  {
    StepKeepsConsistent(t, Attack(r, time), policy);
    StaysInsideIff(t, Attack(r, time), policy);
  }

  lemma {:induction false} AttackedStays(t: Trace, r: RateLimit, from: int, times: seq<int>, policy: Policy)
    requires ValidPolicy(policy) && InFirstWindow(t, r, from, policy)
    ensures var n := Attacked(t, r, times, policy);
      InFirstWindow(n, r, from, policy) || InLaterWindow(n, r, policy)
  {
    hide InFirstWindow, InLaterWindow, Next;
    if times != [] {
      var n := |times| - 1;
      AttackedStays(t, r, from, times[..n], policy);
      var before := Attacked(t, r, times[..n], policy);
      if InFirstWindow(before, r, from, policy) {
        FirstWindowStep(before, r, from, times[n], policy);
      } else {
        LaterWindowStep(before, r, times[n], policy);
      }
    }
  }

  lemma FirstWindowBounded(t: Trace, r: RateLimit, from: int, policy: Policy)
    requires ValidPolicy(policy) && InFirstWindow(t, r, from, policy)
    ensures t.state.value.strikes <= 1 || t.state.value.strikes <= 1 + (r.createdAt + policy.windowMs - from) / policy.cooldownMs
  {
    if t.times != [] {
      var span := r.createdAt + policy.windowMs - t.times[0];
      assert span >= 0;
      StrikesFit(t, policy);
      hide Consistent;
      QuotientGrows(span, r.createdAt + policy.windowMs - from, policy.cooldownMs);
    }
  }

  lemma LaterWindowBounded(t: Trace, r: RateLimit, policy: Policy)
    requires ValidPolicy(policy) && InLaterWindow(t, r, policy)
    ensures t.state.value.strikes <= StrikeBound(policy)
  {
    hide Consistent, InsideWindow;
    InsideWindowBounded(t, policy);
  }

  /** How many strikes attacks can add up to, whatever their times. */
  lemma AttackedBounded(t: Trace, r: RateLimit, from: int, times: seq<int>, policy: Policy)
    requires ValidPolicy(policy) && InFirstWindow(t, r, from, policy)
    ensures var n := Attacked(t, r, times, policy);
      n.state.Some? && (n.state.value.strikes <= StrikeBound(policy) ||
                        n.state.value.strikes <= 1 + (r.createdAt + policy.windowMs - from) / policy.cooldownMs)
  {
    hide Attacked, Consistent, InsideWindow;
    AttackedStays(t, r, from, times, policy);
    var n := Attacked(t, r, times, policy);
    BoundIsPositive(policy);
    if InLaterWindow(n, r, policy) {
      LaterWindowBounded(n, r, policy);
    } else {
      FirstWindowBounded(n, r, from, policy);
    }
  }

  lemma BoundIsPositive(policy: Policy)
    requires ValidPolicy(policy)
    ensures StrikeBound(policy) >= 1
  {
    QuotientBound(0, policy.cooldownMs, policy.windowMs);
  }

  /** Times one cooldown apart, after the first. */
  function Every(first: int, cooldown: int, n: nat): seq<int> {
    seq(n, i requires 0 <= i < n => first + (i + 1) * cooldown)
  }

  lemma {:induction false} EveryAttackCounts(t: Trace, r: RateLimit, first: int, n: nat, policy: Policy)
    requires ValidPolicy(policy) && t.state.Some?
    requires t.state.value == State(r.id, r.target, 1, At(r.createdAt), At(r.createdAt), At(first), At(first))
    requires first + n * policy.cooldownMs <= r.createdAt + policy.windowMs
    ensures var a := Attacked(t, r, Every(first, policy.cooldownMs, n), policy);
      var last := At(first + n * policy.cooldownMs);
      a.state == Some(State(r.id, r.target, 1 + n, At(r.createdAt), At(r.createdAt), last, last)) &&
      (n > 0 ==> (a.escalated <==> 1 + n >= policy.hits))
  {
    var c := policy.cooldownMs;
    var times := Every(first, c, n);
    if n > 0 {
      assert times[..n - 1] == Every(first, c, n - 1);
      assert (n - 1) * c + c == n * c;
      EveryAttackCounts(t, r, first, n - 1, policy);
    }
  }

  lemma FirstStrike(before: Trace, r: RateLimit, first: int, policy: Policy)
    requires ValidPolicy(policy) && policy.cooldownMs <= first <= r.createdAt + policy.windowMs
    ensures var t := Next(Next(before, Restrict(r), policy), Attack(r, first), policy);
      InFirstWindow(t, r, first, policy) &&
      t.state == Some(State(r.id, r.target, 1, At(r.createdAt), At(r.createdAt), At(first), At(first)))
  {}

  /** After a restriction the first strike decides: some further attacks exceed the bound exactly
      when more cooldowns fit between that strike and the end of the window than into a window. */
  lemma FirstStrikeDecides(before: Trace, r: RateLimit, first: int, policy: Policy)
    requires ValidPolicy(policy) && policy.cooldownMs <= first <= r.createdAt + policy.windowMs
    ensures var t := Next(Next(before, Restrict(r), policy), Attack(r, first), policy);
      (exists times :: Exceeds(Attacked(t, r, times, policy), policy)) <==>
      (r.createdAt + policy.windowMs - first) / policy.cooldownMs > policy.windowMs / policy.cooldownMs
  {
    hide InFirstWindow, Next, Attacked;
    var t := Next(Next(before, Restrict(r), policy), Attack(r, first), policy);
    FirstStrike(before, r, first, policy);
    var c, span := policy.cooldownMs, r.createdAt + policy.windowMs - first;
    QuotientTimes(span, c);
    if span / c > policy.windowMs / c {
      EveryAttackCounts(t, r, first, span / c, policy);
      assert Exceeds(Attacked(t, r, Every(first, c, span / c), policy), policy);
    }
    forall times | Exceeds(Attacked(t, r, times, policy), policy)
      ensures span / c > policy.windowMs / c
    {
      AttackedBounded(t, r, first, times, policy);
    }
  }

  /** A threshold above the bound, which should be out of reach, can be reached after the first
      strike exactly when that many cooldowns fit before the end of the window. */
  lemma EscalationReachableIff(before: Trace, r: RateLimit, first: int, policy: Policy)
    requires ValidPolicy(policy) && policy.cooldownMs <= first <= r.createdAt + policy.windowMs
    requires policy.hits > StrikeBound(policy)
    ensures var t := Next(Next(before, Restrict(r), policy), Attack(r, first), policy);
      (exists times :: times != [] && Attacked(t, r, times, policy).escalated) <==>
      1 + (r.createdAt + policy.windowMs - first) / policy.cooldownMs >= policy.hits
  {
    var t := Next(Next(before, Restrict(r), policy), Attack(r, first), policy);
    FirstStrike(before, r, first, policy);
    hide InFirstWindow, Next, Attacked;
    var c, span := policy.cooldownMs, r.createdAt + policy.windowMs - first;
    QuotientTimes(span, c);
    if 1 + span / c >= policy.hits {
      EveryAttackCounts(t, r, first, span / c, policy);
      assert Every(first, c, span / c) != [];
    }
    forall times | times != [] && Attacked(t, r, times, policy).escalated
      ensures 1 + span / c >= policy.hits
    {
      AttackedBounded(t, r, first, times, policy);
      EscalatedHasHits(t, r, times, policy);
    }
  }

  lemma EscalatedHasHits(t: Trace, r: RateLimit, times: seq<int>, policy: Policy)
    requires times != [] && Attacked(t, r, times, policy).escalated
    ensures Attacked(t, r, times, policy).state.value.strikes >= policy.hits
  {
    hide Resets;
  }

  /** Before any strike the restriction decides: some attacks exceed the bound exactly when more
      cooldowns fit between the first one after the epoch and the end of the window than into a
      window, so for every restriction of our days. */
  lemma RestrictionDecides(before: Trace, r: RateLimit, policy: Policy)
    requires ValidPolicy(policy)
    ensures var t := Next(before, Restrict(r), policy);
      (exists times :: Exceeds(Attacked(t, r, times, policy), policy)) <==>
      (r.createdAt + policy.windowMs - policy.cooldownMs) / policy.cooldownMs > policy.windowMs / policy.cooldownMs
  {
    var t, c := Next(before, Restrict(r), policy), policy.cooldownMs;
    var span := r.createdAt + policy.windowMs - c;
    assert InFirstWindow(t, r, c, policy);
    hide InFirstWindow, Next;
    if span / c > policy.windowMs / c {
      QuotientPositive(policy.windowMs, c);
      QuotientPositive(span, c);
      FirstStrikeDecides(before, r, c, policy);
      var t' := Next(t, Attack(r, c), policy);
      var times :| Exceeds(Attacked(t', r, times, policy), policy);
      AttackedAfter(t, r, c, times, policy);
      assert Exceeds(Attacked(t, r, [c] + times, policy), policy);
    }
    forall times | Exceeds(Attacked(t, r, times, policy), policy)
      ensures span / c > policy.windowMs / c
    {
      AttackedBounded(t, r, c, times, policy);
    }
  }

  lemma QuotientTimes(a: int, c: int)
    requires c > 0 && a >= 0
    ensures a / c >= 0 && a / c * c <= a
  {}

  lemma QuotientPositive(a: int, c: int)
    requires c > 0
    ensures a / c >= 0 ==> a >= 0
    ensures a >= 0 ==> a / c >= 0
  {}

  lemma {:induction false} AttackedAfter(t: Trace, r: RateLimit, time: int, times: seq<int>, policy: Policy)
    ensures Attacked(t, r, [time] + times, policy) == Attacked(Next(t, Attack(r, time), policy), r, times, policy)
  {
    hide Next;
    var all := [time] + times;
    if times == [] {
      assert all[..0] == [];
    } else {
      assert all[..|all| - 1] == [time] + times[..|times| - 1];
      AttackedAfter(t, r, time, times[..|times| - 1], policy);
    }
  }

  // ----- Where the code differs from its intention -----

  /** After a restriction the next attack is a strike at once, however close to the response:
      the cooldown runs from the epoch, not from the response. */
  lemma ResponseCooldownNeverApplies(r: RateLimit, time: int, policy: Policy)
    requires ValidPolicy(policy) && time - r.createdAt <= policy.windowMs
    ensures Register(Some(CreateState(r)), r, time, policy).counted <==> time >= policy.cooldownMs
  {}

  /** The bound fails for attacks older than the restriction.  With a one-minute window and a
      one-minute cooldown two strikes should be possible at most; three events from before
      the restriction are three strikes, and escalate at threshold three. */
  lemma OldAttacksExceedBound()
    ensures var policy, r := Policy(3, 60_000, 60_000), RateLimit("r", Exact(V4(0x0808_0808)), 1_000_000);
      var t := Run([Restrict(r), Attack(r, 700_000), Attack(r, 760_000), Attack(r, 820_000)], policy);
      ValidPolicy(policy) && StrikeBound(policy) == 2 && t.state.Some? && t.state.value.strikes == 3 && t.escalated
  {
    var policy, r := Policy(3, 60_000, 60_000), RateLimit("r", Exact(V4(0x0808_0808)), 1_000_000);
    var steps := [Restrict(r), Attack(r, 700_000), Attack(r, 760_000), Attack(r, 820_000)];
    assert steps[..3][..2][..1][..0] == [];
    assert steps[..3] == [Restrict(r), Attack(r, 700_000), Attack(r, 760_000)];
    assert steps[..3][..2] == [Restrict(r), Attack(r, 700_000)];
    assert steps[..3][..2][..1] == [Restrict(r)];
    var t0 := Run([Restrict(r)], policy);
    var t1 := Run([Restrict(r), Attack(r, 700_000)], policy);
    assert t0 == Next(Run([], policy), Restrict(r), policy);
    assert t1 == Next(t0, Attack(r, 700_000), policy);
  }
}
