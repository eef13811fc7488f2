/** How one suspicious event is judged: the protection rule it falls under, the autopilot's
    decision, and the older risk-threshold candidates. */
module Autopilot {
  import opened Wrappers
  import opened Sequences
  import opened Timestamps
  import opened Addresses
  import opened HostPolicy

  datatype Signal =
    | SensitiveFileProbe | CmsProbe | PathTraversal | InjectionProbe | UnusualMethod
    | ScannerUserAgent | DeclaredCrawler | AutomationClient | AccessDenied | NotFound
    | LargeRequest | SlowRequest | RequestBurst | ExtremeRequestBurst | AuthFailureBurst
    | PathEnumeration | ReconnaissanceBurst | CrawlerPathSweep | Crawler404Sweep | CrawlerAttack
    | CustomSoft(rule: string) | CustomObserve(rule: string)

  datatype Event = Event(ip: Address, timestamp: Stamp, host: string, path: string,
                         automationRisk: int, signals: seq<Signal>)

  predicate Has(e: Event, signal: Signal) { signal in e.signals }

  function RuleForEvent(e: Event): Option<RuleKey> {
    if Has(e, SensitiveFileProbe) then Some(CriticalFiles)
    else if Has(e, PathTraversal) || Has(e, InjectionProbe) then Some(Exploit)
    else if Has(e, AuthFailureBurst) then Some(AuthAbuse)
    else if Has(e, CrawlerAttack) then Some(Crawler)
    else if Has(e, ExtremeRequestBurst) || Has(e, RequestBurst) then Some(Ddos)
    else if Has(e, ReconnaissanceBurst) || Has(e, PathEnumeration) || Has(e, ScannerUserAgent) || Has(e, CmsProbe) then
      Some(Recon)
    else if Has(e, UnusualMethod) then Some(UnusualMethods)
    else None
  }

  // ----- The autopilot -----

  datatype Profile = Conservative | Balanced | Aggressive

  datatype Thresholds = Thresholds(rateLimit: int, challenge: int, block: int)

  function ThresholdsOf(p: Profile): Thresholds {
    match p
    case Conservative => Thresholds(60, 82, 96)
    case Balanced => Thresholds(48, 72, 90)
    case Aggressive => Thresholds(40, 62, 82)
  }

  predicate IsStrong(s: Signal) {
    s.CrawlerAttack? || s.ExtremeRequestBurst? || s.AuthFailureBurst? || s.ReconnaissanceBurst? ||
    s.PathTraversal? || s.InjectionProbe? || s.SensitiveFileProbe? || s.ScannerUserAgent?
  }

  function StrongSignals(signals: seq<Signal>): nat {
    if signals == [] then 0 else (if IsStrong(signals[0]) then 1 else 0) + StrongSignals(signals[1..])
  }

  /** What the autopilot sees of the responses already active for the address. */
  datatype Standing = Standing(rateLimited: bool, challenged: bool, mature: bool, repeatBlocks: nat)

  datatype Decision = Decision(action: Action, confidence: int, durationMultiplier: int)

  function Confidence(e: Event, s: Standing): int {
    var state := if s.challenged then 16 else if s.rateLimited then 8 else 0;
    Clamp(Clamp(e.automationRisk, 0, 100) + state + Min(8, StrongSignals(e.signals) * 2) + Min(12, s.repeatBlocks * 4), 0, 100)
  }

  function Decide(e: Event, profile: Profile, s: Standing): Decision {
    var t, confidence := ThresholdsOf(profile), Confidence(e, s);
    var action :=
      if s.challenged && !s.mature then Challenge
      else if s.challenged && confidence >= t.challenge then Block
      else if confidence >= t.block then Block
      else if s.rateLimited && confidence >= t.rateLimit then Challenge
      else if confidence >= t.challenge then Challenge
      else if confidence >= t.rateLimit then RateLimit
      else ObserveOnly;
    Decision(action, confidence, Min(4, 1 + s.repeatBlocks))
  }

  function Severity(a: Action): int {
    match a
    case RateLimit => 1
    case Challenge => 2
    case Block => 3
    case _ => 0
  }

  function Rank(p: Profile): int {
    match p
    case Conservative => 0
    case Balanced => 1
    case Aggressive => 2
  }

  /** More risk, more repetitions or a sharper profile never soften the decision, and neither
      does a rate limit or a challenge already in place, once the challenge is past its grace. */
  lemma DecisionIsMonotone(a: Event, b: Event, p: Profile, q: Profile, s: Standing, t: Standing)
    requires a.signals == b.signals && a.automationRisk <= b.automationRisk && Rank(p) <= Rank(q)
    requires s.repeatBlocks <= t.repeatBlocks
    requires (s.rateLimited ==> t.rateLimited) && (s.challenged ==> t.challenged)
    requires (s.challenged ==> s.mature) && (t.challenged ==> t.mature)
    ensures Severity(Decide(a, p, s).action) <= Severity(Decide(b, q, t).action)
    ensures Decide(a, p, s).durationMultiplier <= Decide(b, q, t).durationMultiplier <= 4
  {}

  /** From which confidence a profile limits, challenges and blocks. */
  datatype Steps = Steps(limit: int, challenge: int, block: int)

  function StepsOf(p: Profile): Steps {
    if p == Conservative then Steps(60, 82, 96) else if p == Balanced then Steps(48, 72, 90) else Steps(40, 62, 82)
  }

  /** Exactly when the autopilot decides what: a running challenge is waited for; an ignored one
      makes the next threshold enough for a block, and a rate limit in force for a challenge. */
  lemma DecidesIff(e: Event, p: Profile, s: Standing)
    ensures var steps, c, action := StepsOf(p), Confidence(e, s), Decide(e, p, s).action;
      if s.challenged && !s.mature then action == Challenge
      else
        (action == Block <==> c >= (if s.challenged then steps.challenge else steps.block)) &&
        (action == Challenge <==>
          c < (if s.challenged then steps.challenge else steps.block) && c >= if s.rateLimited then steps.limit else steps.challenge) &&
        (action == RateLimit <==> !s.rateLimited && steps.limit <= c < steps.challenge) &&
        (action == ObserveOnly <==> c < steps.limit)
  {}

  /** What evidence weighs, until the confidence reaches 100: a running challenge 16, a rate limit
      alone 8, each block of the last day 4 for three of them, each strong signal 2 for four. */
  lemma EvidenceWeighs(e: Event, s: Standing, signal: Signal)
    requires 0 <= e.automationRisk <= 100
    ensures e.signals == [] && !s.challenged && !s.rateLimited && s.repeatBlocks == 0 ==> Confidence(e, s) == e.automationRisk
    ensures !s.challenged && !s.rateLimited ==>
      Confidence(e, s.(challenged := true)) == Min(100, Confidence(e, s) + 16) &&
      Confidence(e, s.(challenged := true, rateLimited := true)) == Min(100, Confidence(e, s) + 16) &&
      Confidence(e, s.(rateLimited := true)) == Min(100, Confidence(e, s) + 8)
    ensures Confidence(e, s.(repeatBlocks := s.repeatBlocks + 1)) == Min(100, Confidence(e, s) + if s.repeatBlocks < 3 then 4 else 0)
    ensures Confidence(e.(signals := [signal] + e.signals), s) ==
      Min(100, Confidence(e, s) + if IsStrong(signal) && StrongSignals(e.signals) < 4 then 2 else 0)
  {
    assert ([signal] + e.signals)[1..] == e.signals;
  }

  /** How severe what comes of a decision is: off proxy hosts nothing comes of a challenge. */
  function Carried(action: Action, proxied: bool): int {
    if action == Challenge && !proxied then 0 else Severity(action)
  }

  /** What comes of the decision is not monotone: more risk leaves a weaker response exactly off
      proxy hosts where it turns a rate limit into a challenge. */
  lemma MoreRiskWeakerIff(a: Event, b: Event, p: Profile, s: Standing, proxied: bool)
    requires a.signals == b.signals && a.automationRisk <= b.automationRisk && (s.challenged ==> s.mature)
    ensures var before, after := Decide(a, p, s).action, Decide(b, p, s).action;
      Carried(before, proxied) > Carried(after, proxied) <==> !proxied && before == RateLimit && after == Challenge
  {
    DecisionIsMonotone(a, b, p, p, s, s);
    hide Confidence;
  }

  /** This happens: at a risk of 60 the balanced profile limits, at 80 it would challenge. */
  lemma MoreRiskWeakerHappens(e: Event)
    requires e.signals == [CmsProbe]
    ensures RuleForEvent(e) == Some(Recon)
    ensures var s := Standing(false, false, false, 0);
      Decide(e.(automationRisk := 60), Balanced, s).action == RateLimit &&
      Decide(e.(automationRisk := 80), Balanced, s).action == Challenge
  {
    assert e.signals[0] == CmsProbe && StrongSignals(e.signals) == 0;
  }

  /** Without an active challenge a block needs the block threshold. */
  lemma BlocksNeedConfidence(e: Event, p: Profile, s: Standing)
    requires Decide(e, p, s).action == Block
    ensures Confidence(e, s) >= if s.challenged then ThresholdsOf(p).challenge else ThresholdsOf(p).block
    ensures s.challenged ==> s.mature
  {}

  // ----- The risk-threshold candidates -----

  predicate CrawlerCandidate(e: Event, trusted: seq<Target>, blockThreshold: int) {
    e.automationRisk >= Min(blockThreshold, 80) && Answerable(e.ip, trusted) && Has(e, CrawlerAttack)
  }

  predicate AutoBlockCandidate(e: Event, trusted: seq<Target>, blockThreshold: int) {
    e.automationRisk >= blockThreshold && Answerable(e.ip, trusted) &&
    (Has(e, PathTraversal) || Has(e, InjectionProbe) || Has(e, ReconnaissanceBurst) || Has(e, AuthFailureBurst) ||
     (Has(e, SensitiveFileProbe) && Has(e, ScannerUserAgent)))
  }

  predicate IsCustomSoft(e: Event): (r: bool)
    ensures r <==> exists s :: s in e.signals && s.CustomSoft?
  {
    exists i :: 0 <= i < |e.signals| && e.signals[i].CustomSoft?
  }

  predicate AutoRateLimitCandidate(e: Event, trusted: seq<Target>, rateLimitThreshold: int) {
    e.automationRisk >= rateLimitThreshold && Answerable(e.ip, trusted) &&
    (Has(e, PathTraversal) || Has(e, InjectionProbe) || Has(e, SensitiveFileProbe) || Has(e, RequestBurst) ||
     Has(e, AuthFailureBurst) || Has(e, PathEnumeration) || Has(e, ReconnaissanceBurst) ||
     (Has(e, ScannerUserAgent) && (Has(e, CmsProbe) || Has(e, AccessDenied) || Has(e, NotFound))) ||
     (Has(e, UnusualMethod) && Has(e, AccessDenied)) || IsCustomSoft(e))
  }

  /** The monitor asks for candidates only for events that no protection rule has dealt with.
      Those are never candidates for a hard block, and candidates for a rate limit only
      through a custom rule: the older hard-block paths cannot be reached. */
  lemma OlderHardBlocksUnreachable(e: Event, trusted: seq<Target>, blockThreshold: int, rateLimitThreshold: int)
    requires !(RuleForEvent(e).Some? && Answerable(e.ip, trusted))
    ensures !CrawlerCandidate(e, trusted, blockThreshold) && !AutoBlockCandidate(e, trusted, blockThreshold)
    ensures AutoRateLimitCandidate(e, trusted, rateLimitThreshold) <==>
      e.automationRisk >= rateLimitThreshold && Answerable(e.ip, trusted) && IsCustomSoft(e)
  {}
}
