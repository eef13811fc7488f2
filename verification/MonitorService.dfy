/** The monitor pass in one piece, and the challenge store it hands its requests to. */
module MonitorService {
  import opened Wrappers
  import opened Addresses
  import opened Autopilot
  import opened MonitorPass
  import opened MonitorProofs
  import opened MonitorResults
  import opened ThreatMonitor
  import Challenges

  /** The loop over the batch and the commits after it.  Without faults no address is blocked
      twice or inside an active block, no rate limit covers a new block, no strikes are kept for
      one, and exactly the earlier challenges of newly blocked addresses are gone. */
  method MonitorThreats(env: Env, escalations: Counters, events: seq<Event>, f: Faults) returns (r: PassResult)
    ensures r == Pass(env, escalations, events, f)
    ensures NoFaults(env, Worked(env, escalations, events), f) ==>
      BlocksAreNew(env, r) && r.escalations.Some? &&
      (forall x, ip :: x in r.rateLimits && NewlyBlocked(env, r, ip) ==> !Contains(x.target, ip)) &&
      (forall ip :: NewlyBlocked(env, r, ip) ==> ip !in r.escalations.value) &&
      (forall c <- env.challenges :: c !in r.challenges <==> NewlyBlocked(env, r, c.ip))
  {
    hide HandleAll, Finish, NoFaults, BlocksAreNew, NewlyBlocked;
    var monitor := new Monitor(env, escalations);
    monitor.Run(events);
    r := monitor.Commit(f);
    if NoFaults(env, Worked(env, escalations, events), f) {
      PassSucceeds(env, escalations, events, f);
    }
  }

  // ----- The challenge store -----

  /** The requests as the store gets them. */
  function ItemsFor(requests: seq<ChallengeRequest>): (items: seq<Challenges.Item>)
    ensures |items| == |requests|
  {
    seq(|requests|, i requires 0 <= i < |requests| =>
      Challenges.Item(if requests[i].ip.Other? then None else Some(requests[i].ip), requests[i].minutes, requests[i].difficulty))
  }

  /** The address has a challenge as it was asked for, with the time and the difficulty the settings
      give, within 1 to 120 minutes and 10 to 22 bits. */
  ghost predicate HasRequested(challenges: seq<Challenges.Challenge>, q: ChallengeRequest, now: int) {
    exists c :: c in challenges && c.ip == q.ip && c.attempts == 0 &&
      (10 <= q.difficulty <= 22 ==> c.difficulty == q.difficulty) &&
      (1 <= q.minutes <= 120 ==> c.expiresAt == now + q.minutes * 60_000)
  }

  /** The pass was given the store's active challenges. */
  ghost predicate SameChallenges(env: Env, active: seq<Challenges.Challenge>) {
    |active| == |env.challenges| && forall i :: 0 <= i < |active| ==> active[i].ip == env.challenges[i].ip
  }

  lemma RequestsAreAddresses(env: Env, w: Work, events: seq<Event>)
    requires Sound(env, w, events)
    ensures forall i :: 0 <= i < |w.requests| ==> !w.requests[i].ip.Other?
  {
    hide BlocksOk, CountersOk, ChallengesOk, RemovalsOk, RateLimitsOk;
    forall i | 0 <= i < |w.requests|
      ensures !w.requests[i].ip.Other?
    {
      assert Caused(env, events, w.requests[i].ip);
    }
  }

  lemma ItemsAreUsable(env: Env, w: Work, events: seq<Event>)
    requires Sound(env, w, events)
    ensures !exists i :: 0 <= i < |w.requests| && ItemsFor(w.requests)[i].ip.None?
  {
    hide Sound;
    RequestsAreAddresses(env, w, events);
  }

  lemma WithinLimit(challenges: seq<Challenges.Challenge>)
    requires Challenges.Good(challenges)
    ensures |Challenges.Challenged(challenges)| <= Challenges.MAX_CHALLENGES
  {
    Challenges.AsManyAddresses(challenges);
  }

  lemma {:induction false} AsManyRequested(items: seq<Challenges.Item>)
    requires forall i :: 0 <= i < |items| ==> items[i].ip.Some?
    requires forall i, j :: 0 <= i < j < |items| ==> items[i].ip != items[j].ip
    ensures |Challenges.Requested(items)| == |items|
  {
    if items != [] {
      var n := |items| - 1;
      AsManyRequested(items[..n]);
      Challenges.RequestedGrows(items, n);
      assert items[..n + 1] == items;
    }
  }

  /** All addresses together are as many as the active challenges and the requests. */
  lemma AllCounted(env: Env, w: Work, events: seq<Event>, active: seq<Challenges.Challenge>)
    requires Sound(env, w, events) && SameChallenges(env, active) && Challenges.Good(active)
    ensures |Challenges.Challenged(active) + Challenges.Requested(ItemsFor(w.requests))| == |env.challenges| + |w.requests|
    ensures |Challenges.Challenged(active)| == |env.challenges|
  {
    var items := ItemsFor(w.requests);
    RequestsAreAddresses(env, w, events);
    assert ChallengesOk(env, w);
    hide Sound, BlocksOk, CountersOk, RemovalsOk, RateLimitsOk, OriginsOk, InitiallyBlocked;
    AsManyRequested(items);
    Challenges.AsManyAddresses(active);
    forall ip | ip in Challenges.Challenged(active)
      ensures ip !in Challenges.Requested(items)
    {
      var i :| 0 <= i < |active| && active[i].ip == ip;
      MapHasChallenges(env.challenges, ip);
      assert env.challenges[i].ip == ip;
    }
    assert Challenges.Challenged(active) !! Challenges.Requested(items);
  }

  lemma SoundChallenges(env: Env, w: Work, events: seq<Event>)
    requires Sound(env, w, events)
    ensures ChallengesOk(env, w)
  {}

  lemma MadeAsRequested(env: Env, w: Work, before: seq<Challenges.Challenge>, after: seq<Challenges.Challenge>,
                        result: seq<Challenges.Challenge>, tickets: seq<Challenges.Ticket>, now: int, i: nat)
    requires ChallengesOk(env, w) && SameChallenges(env, before) && before <= after && |tickets| == |w.requests| && i < |w.requests|
    requires Challenges.Answers(result, after, ItemsFor(w.requests))
    requires Challenges.MadeFor(after[|before|..], ItemsFor(w.requests), tickets, now, |w.requests|)
    ensures HasRequested(after, w.requests[i], now)
  {
    hide InitiallyBlocked, ChallengeMap, Queued, Challenges.NewChallenge;
    var c, made := result[i], after[|before|..];
    var n :| 0 <= n < |after| && after[n] == c;
    MapHasChallenges(env.challenges, c.ip);
    assert n >= |before|;
    assert made[n - |before|] == c;
    assert Challenges.MadeForOne(made[n - |before|], ItemsFor(w.requests), tickets, now, |w.requests|);
    var j :| 0 <= j < |w.requests| && Challenges.IsFor(c, ItemsFor(w.requests), tickets, now, j);
    assert j == i;
  }

  /** Handing the requests of a pass to the store succeeds exactly as the pass supposes: when
      the store's writes work and the limit leaves room. */
  method CreateChallenges(env: Env, ghost w: Work, ghost events: seq<Event>, requests: seq<ChallengeRequest>,
                          store: Challenges.Service, tickets: seq<Challenges.Ticket>, now: int, f: Faults)
    returns (created: bool)
    requires Sound(env, w, events) && requests == w.requests != []
    requires store.Valid() && SameChallenges(env, store.stored) && Challenges.Active(store.stored, now) == store.stored
    requires |tickets| == |requests| && Challenges.Unused(store.stored, tickets, 0)
    modifies store
    ensures store.Valid() && (created <==> ChallengesCreated(env, w, f))
    ensures !created ==> store.stored == old(store.stored)
    ensures created ==> old(store.stored) <= store.stored
    ensures created ==>
      Challenges.Challenged(store.stored) == Challenges.Challenged(old(store.stored)) + Challenges.Requested(ItemsFor(requests))
    ensures created ==> forall i :: 0 <= i < |requests| ==> HasRequested(store.stored, requests[i], now)
  {
    hide Sound, ItemsFor, SameChallenges, HasRequested, ChallengesOk, Challenges.Good, Challenges.Active,
      Challenges.Challenged, Challenges.Requested,
      Challenges.MadeFor, Challenges.Answers, Challenges.Unused;
    ItemsAreUsable(env, w, events);
    AllCounted(env, w, events, store.stored);
    ghost var before := store.stored;
    assert ChallengesOk(env, w) by { SoundChallenges(env, w, events); }
    var r := store.ChallengeIps(ItemsFor(requests), tickets, now, true, f.challenges);
    created := r.Ok?;
    if created {
      forall i | 0 <= i < |requests|
        ensures HasRequested(store.stored, requests[i], now)
      {
        MadeAsRequested(env, w, before, store.stored, r.value, tickets, now, i);
      }
    }
    WithinLimit(store.stored);
  }
}
