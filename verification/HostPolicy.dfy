/** Which protection applies to a request: an explicit host policy over the host's group over
    the global policy, found by domain name, and adjusted by the host's endpoint rules. */
module HostPolicy {
  import opened Wrappers
  import opened Sequences
  import opened Sorting
  import opened Texts
  import opened EndpointRules

  // ----- Protection rules -----

  datatype Action = Inherit | Auto | ObserveOnly | Deny | RateLimit | Challenge | Block

  datatype RuleKey = Crawler | Ddos | CriticalFiles | Exploit | AuthAbuse | Recon | UnusualMethods

  datatype Rules = Rules(crawler: Action, ddos: Action, criticalFiles: Action, exploit: Action,
                         authAbuse: Action, recon: Action, unusualMethods: Action)
  {
    function Get(key: RuleKey): Action {
      match key
      case Crawler => crawler
      case Ddos => ddos
      case CriticalFiles => criticalFiles
      case Exploit => exploit
      case AuthAbuse => authAbuse
      case Recon => recon
      case UnusualMethods => unusualMethods
    }
  }

  function ByKey(f: RuleKey -> Action): (r: Rules)
    ensures forall key :: r.Get(key) == f(key)
  {
    Rules(f(Crawler), f(Ddos), f(CriticalFiles), f(Exploit), f(AuthAbuse), f(Recon), f(UnusualMethods))
  }

  const DEFAULT_PROTECTION_RULES := Rules(Auto, Auto, Auto, Auto, Auto, Auto, Auto)

  ghost predicate NoInherit(rules: Rules) {
    forall key :: rules.Get(key) != Inherit
  }

  /** Rules as entered: a key without a valid action is absent. */
  function NormalizeRules(raw: map<RuleKey, Action>, fallback: Rules, allowInherit: bool): Rules {
    ByKey(key =>
      if key in raw && (allowInherit || raw[key] != Inherit) then raw[key]
      else if allowInherit then Inherit
      else fallback.Get(key))
  }

  function ResolveRules(rules: Rules, fallback: Rules): (r: Rules)
    ensures forall key :: r.Get(key) == if rules.Get(key) == Inherit then fallback.Get(key) else rules.Get(key)
  {
    ByKey(key => if rules.Get(key) == Inherit then fallback.Get(key) else rules.Get(key))
  }

  // ----- Policies -----

  datatype Settings = Settings(mode: Mode, rateLimitThreshold: int, rateLimitMinutes: int,
                               blockThreshold: int, blockMinutes: int,
                               challengeMinutes: int, challengeDifficulty: int,
                               rules: Rules, endpointRules: seq<EndpointRule>)

  datatype Policy = Policy(autoBlockEnabled: bool, rateLimitThreshold: int, rateLimitMinutes: int,
                           blockThreshold: int, blockMinutes: int, rules: Rules,
                           hostPolicies: map<int, Settings>)

  /** A policy as entered; a number that cannot be read is none. */
  datatype RawSettings = RawSettings(mode: Option<Mode>, rateLimitThreshold: Option<int>, rateLimitMinutes: Option<int>,
                                     blockThreshold: Option<int>, blockMinutes: Option<int>,
                                     challengeMinutes: Option<int>, challengeDifficulty: Option<int>,
                                     rules: map<RuleKey, Action>, endpointRules: seq<Candidate>)

  /** Zero counts as absent. */
  function Or(value: int, default: int): int { if value != 0 then value else default }

  function NormalizeHostPolicy(raw: RawSettings, global: Policy): Settings {
    var mode := raw.mode.GetOr(Observe);
    var rateLimit := Or(global.rateLimitThreshold, 50);
    var block := Or(global.blockThreshold, 95);
    var minutes := Clamp(Or(raw.rateLimitMinutes.GetOr(0), Or(global.rateLimitMinutes, 10)), 1, 43_200);
    Settings(mode,
      Clamp(Or(raw.rateLimitThreshold.GetOr(0), if mode.Strict? then Min(rateLimit, 45) else rateLimit), 40, 100),
      minutes,
      Clamp(Or(raw.blockThreshold.GetOr(0), if mode.Strict? then Min(block, 90) else block), 80, 100),
      Clamp(Or(raw.blockMinutes.GetOr(0), Or(global.blockMinutes, 60)), 1, 43_200),
      Clamp(Or(raw.challengeMinutes.GetOr(0), Min(30, Max(5, minutes))), 1, 120),
      Clamp(Max(if mode.Strict? then 16 else 10, Or(raw.challengeDifficulty.GetOr(0), if mode.Strict? then 16 else 14)), 10, 22),
      NormalizeRules(raw.rules, global.rules, true),
      NormalizeEndpointRules(raw.endpointRules))
  }

  datatype Host = Host(id: int, domainNames: seq<string>)

  /** A group without a security mode inherits the global one. */
  datatype Group = Group(id: string, hostIds: seq<int>, securityMode: Option<Mode>, rules: map<RuleKey, Action>)

  function GroupForHost(groups: seq<Group>, hostId: int): Option<Group> {
    if groups == [] then None
    else if hostId in groups[0].hostIds then Some(groups[0])
    else GroupForHost(groups[1..], hostId)
  }

  function GlobalMode(policy: Policy): Mode {
    if policy.autoBlockEnabled then Protect else Observe
  }

  function GroupPolicy(group: Option<Group>, policy: Policy): Option<Settings> {
    if group.None? then None
    else if group.value.securityMode.None? && (forall key <- group.value.rules :: group.value.rules[key] == Inherit) then None
    else
      Some(NormalizeHostPolicy(
        RawSettings(Some(group.value.securityMode.GetOr(GlobalMode(policy))), None, None, None, None, None, None,
                    group.value.rules, []),
        policy))
  }

  // ----- The policy shown for one host -----

  function DefaultSettings(policy: Policy): Settings {
    Settings(if policy.autoBlockEnabled then Protect else Observe,
      policy.rateLimitThreshold, policy.rateLimitMinutes, policy.blockThreshold, policy.blockMinutes,
      Min(30, Max(5, policy.rateLimitMinutes)), 14, policy.rules, [])
  }

  function GroupRuleFallback(groupPolicy: Option<Settings>, policy: Policy): Rules {
    match groupPolicy
    case Some(g) => ResolveRules(g.rules, policy.rules)
    case None => policy.rules
  }

  function HostPolicyEntry(host: Host, policy: Policy, group: Option<Group>): Settings {
    var groupPolicy := GroupPolicy(group, policy);
    var fallback := GroupRuleFallback(groupPolicy, policy);
    match Lookup(policy.hostPolicies, host.id)
    case Some(explicit) => explicit.(rules := ResolveRules(explicit.rules, fallback))
    case None =>
      match groupPolicy
      case Some(g) => g.(rules := fallback)
      case None => DefaultSettings(policy)
  }

  // ----- The policy applied to requests -----

  datatype Effective = Effective(proxyHostId: Option<int>, autoBlockEnabled: bool, settings: Settings,
                                 endpointRulePath: Option<string>)

  function GlobalEffective(policy: Policy): Effective {
    Effective(None, policy.autoBlockEnabled,
      Settings(GlobalMode(policy), policy.rateLimitThreshold, policy.rateLimitMinutes,
        policy.blockThreshold, policy.blockMinutes, Min(30, Max(5, policy.rateLimitMinutes)), 14, policy.rules, []),
      None)
  }

  predicate Enforcing(mode: Mode) { mode.Protect? || mode.Strict? }

  function HostEffective(host: Host, policy: Policy, groups: seq<Group>): Effective {
    var explicit := Lookup(policy.hostPolicies, host.id);
    var groupPolicy := GroupPolicy(GroupForHost(groups, host.id), policy);
    var fallback := GroupRuleFallback(groupPolicy, policy);
    var source := if explicit.Some? then explicit else groupPolicy;
    match source
    case None => GlobalEffective(policy).(proxyHostId := Some(host.id))
    case Some(s) =>
      Effective(Some(host.id), policy.autoBlockEnabled && Enforcing(s.mode),
        s.(rules := if explicit.Some? then ResolveRules(s.rules, fallback) else fallback), None)
  }

  datatype Wildcard = Wildcard(suffix: string, effective: Effective)

  datatype Context = Context(exact: map<string, Effective>, wildcards: seq<Wildcard>)

  /** A domain name of a host with what applies to it. */
  datatype Entry = Entry(name: string, effective: Effective)

  function EntriesOf(names: seq<string>, effective: Effective): seq<Entry> {
    if names == [] then []
    else
      var r := EntriesOf(names[..|names| - 1], effective);
      var name := NormalizeHostname(names[|names| - 1]);
      if name == "" then r else r + [Entry(name, effective)]
  }

  /** All usable domain names, host by host. */
  function Entries(policy: Policy, hosts: seq<Host>, groups: seq<Group>): seq<Entry> {
    if hosts == [] then []
    else
      var last := hosts[|hosts| - 1];
      Entries(policy, hosts[..|hosts| - 1], groups) + EntriesOf(last.domainNames, HostEffective(last, policy, groups))
  }

  predicate IsWildcard(name: string) { StartsWith(name, "*.") }

  function ExactOf(entries: seq<Entry>): map<string, Effective> {
    if entries == [] then map[]
    else
      var m, e := ExactOf(entries[..|entries| - 1]), entries[|entries| - 1];
      if IsWildcard(e.name) then m else m[e.name := e.effective]
  }

  function WildcardsOf(entries: seq<Entry>): seq<Wildcard> {
    if entries == [] then []
    else
      var r, e := WildcardsOf(entries[..|entries| - 1]), entries[|entries| - 1];
      if IsWildcard(e.name) then r + [Wildcard(e.name[1..], e.effective)] else r
  }

  function NegativeSuffix(w: Wildcard): int { -|w.suffix| }

  function ContextOf(entries: seq<Entry>): Context {
    Context(ExactOf(entries), SortBy(WildcardsOf(entries), NegativeSuffix))
  }

  /** The two tables of a context stand for a list of entries. */
  ghost predicate Tables(exact: map<string, Effective>, wildcards: seq<Wildcard>, entries: seq<Entry>) {
    exact == ExactOf(entries) && wildcards == WildcardsOf(entries)
  }

  lemma TablesGrow(exact: map<string, Effective>, wildcards: seq<Wildcard>, entries: seq<Entry>, e: Entry)
    requires Tables(exact, wildcards, entries)
    ensures IsWildcard(e.name) ==> Tables(exact, wildcards + [Wildcard(e.name[1..], e.effective)], entries + [e])
    ensures !IsWildcard(e.name) ==> Tables(exact[e.name := e.effective], wildcards, entries + [e])
  {
    assert (entries + [e])[..|entries|] == entries;
  }

  lemma EntriesOfGrow(names: seq<string>, effective: Effective, d: nat)
    requires d < |names|
    ensures var name := NormalizeHostname(names[d]);
      EntriesOf(names[..d + 1], effective) == EntriesOf(names[..d], effective) + if name == "" then [] else [Entry(name, effective)]
  {
    assert names[..d + 1][..d] == names[..d];
  }

  method AddHost(exact: map<string, Effective>, wildcards: seq<Wildcard>, ghost entries: seq<Entry>,
                 names: seq<string>, effective: Effective)
    returns (exact': map<string, Effective>, wildcards': seq<Wildcard>)
    requires Tables(exact, wildcards, entries)
    ensures Tables(exact', wildcards', entries + EntriesOf(names, effective))
  {
    exact', wildcards' := exact, wildcards;
    ghost var added := [];
    assert EntriesOf(names[..0], effective) == [] && entries + added == entries;
    hide *;
    var d := 0;
    while d < |names|
      invariant 0 <= d <= |names|
      invariant added == EntriesOf(names[..d], effective)
      invariant Tables(exact', wildcards', entries + added)
    {
      var normalized := NormalizeHostname(names[d]);
      EntriesOfGrow(names, effective, d);
      if normalized != "" {
        ghost var e := Entry(normalized, effective);
        TablesGrow(exact', wildcards', entries + added, e);
        AppendAssociates(entries, added, [e]);
        added := added + [e];
        if IsWildcard(normalized) {
          wildcards' := wildcards' + [Wildcard(normalized[1..], effective)];
        } else {
          exact' := exact'[normalized := effective];
        }
      }
      d := d + 1;
    }
    assert names[..|names|] == names;
  }

  lemma EntriesGrow(policy: Policy, hosts: seq<Host>, groups: seq<Group>, h: nat)
    requires h < |hosts|
    ensures Entries(policy, hosts[..h + 1], groups) ==
      Entries(policy, hosts[..h], groups) + EntriesOf(hosts[h].domainNames, HostEffective(hosts[h], policy, groups))
  {
    assert hosts[..h + 1][..h] == hosts[..h];
  }

  method CreateHostPolicyContext(policy: Policy, hosts: seq<Host>, groups: seq<Group>) returns (context: Context)
    ensures context == ContextOf(Entries(policy, hosts, groups))
  {
    var exact: map<string, Effective> := map[];
    var wildcards: seq<Wildcard> := [];
    assert Tables(exact, wildcards, Entries(policy, hosts[..0], groups));
    var h := 0;
    while h < |hosts|
      invariant 0 <= h <= |hosts|
      invariant Tables(exact, wildcards, Entries(policy, hosts[..h], groups))
    {
      hide *;
      var host := hosts[h];
      EntriesGrow(policy, hosts, groups, h);
      exact, wildcards := AddHost(exact, wildcards, Entries(policy, hosts[..h], groups),
        host.domainNames, HostEffective(host, policy, groups));
      h := h + 1;
    }
    assert hosts[..|hosts|] == hosts;
    context := Context(exact, SortBy(wildcards, NegativeSuffix));
  }

  // ----- Resolving a request -----

  predicate Covers(w: Wildcard, name: string) {
    EndsWith(name, w.suffix) && (w.suffix == "" || name != w.suffix[1..])
  }

  function FindWildcard(wildcards: seq<Wildcard>, name: string): Option<Wildcard> {
    if wildcards == [] then None
    else if Covers(wildcards[0], name) then Some(wildcards[0])
    else FindWildcard(wildcards[1..], name)
  }

  /** What applies to a host name, before endpoint rules. */
  function ForName(context: Context, policy: Policy, name: string): Effective {
    if name in context.exact then context.exact[name]
    else
      match FindWildcard(context.wildcards, name)
      case Some(w) => w.effective
      case None => GlobalEffective(policy)
  }

  function PathOf(requestPath: string): string {
    if requestPath == "" then "/" else requestPath
  }

  function ApplyEndpointRule(effective: Effective, policy: Policy, requestPath: string): Effective {
    match FindRule(effective.settings.endpointRules, PathOf(requestPath))
    case None => effective.(endpointRulePath := None)
    case Some(rule) =>
      var s, strict := effective.settings, rule.mode.Strict?;
      effective.(
        autoBlockEnabled := policy.autoBlockEnabled && Enforcing(rule.mode),
        settings := s.(
          mode := rule.mode,
          rateLimitThreshold := if strict then Min(s.rateLimitThreshold, 45) else s.rateLimitThreshold,
          blockThreshold := if strict then Min(s.blockThreshold, 90) else s.blockThreshold,
          challengeDifficulty := if strict then Max(s.challengeDifficulty, 16) else s.challengeDifficulty),
        endpointRulePath := Some(rule.pathPrefix))
  }

  function Resolve(context: Context, policy: Policy, hostname: string, requestPath: string): Effective {
    ApplyEndpointRule(ForName(context, policy, NormalizeHostname(hostname)), policy, requestPath)
  }

  // ----- Names: exact, then the longest wildcard -----

  /** No name stands for two different things. */
  ghost predicate UniqueNames(entries: seq<Entry>) {
    forall a, b :: a in entries && b in entries && a.name == b.name ==> a.effective == b.effective
  }

  /** The entry is a wildcard that covers the name. */
  ghost predicate CoveredBy(e: Entry, name: string) {
    IsWildcard(e.name) && Covers(Wildcard(e.name[1..], e.effective), name)
  }

  lemma {:induction false} ExactHolds(entries: seq<Entry>, e: Entry)
    requires UniqueNames(entries)
    ensures e.name in ExactOf(entries) ==> exists x :: x in entries && x.name == e.name && !IsWildcard(x.name)
    ensures e in entries && !IsWildcard(e.name) ==> e.name in ExactOf(entries) && ExactOf(entries)[e.name] == e.effective
  {
    if entries != [] {
      var init, last := entries[..|entries| - 1], entries[|entries| - 1];
      assert entries == init + [last] && last in entries;
      ExactHolds(init, e);
    }
  }

  lemma {:induction false} WildcardsAre(entries: seq<Entry>, w: Wildcard)
    ensures w in WildcardsOf(entries) <==> exists e :: e in entries && IsWildcard(e.name) && w == Wildcard(e.name[1..], e.effective)
  {
    if entries != [] {
      var init, last := entries[..|entries| - 1], entries[|entries| - 1];
      assert entries == init + [last] && last in entries;
      WildcardsAre(init, w);
    }
  }

  ghost predicate LongestSuffixFirst(wildcards: seq<Wildcard>) {
    forall i, j :: 0 <= i < j < |wildcards| ==> |wildcards[i].suffix| >= |wildcards[j].suffix|
  }

  lemma {:induction false} FirstCovers(wildcards: seq<Wildcard>, name: string)
    requires LongestSuffixFirst(wildcards)
    ensures match FindWildcard(wildcards, name)
      case None => forall w <- wildcards :: !Covers(w, name)
      case Some(w) => w in wildcards && Covers(w, name) && forall v <- wildcards :: Covers(v, name) ==> |v.suffix| <= |w.suffix|
  {
    if wildcards != [] {
      FirstCovers(wildcards[1..], name);
      assert wildcards == [wildcards[0]] + wildcards[1..];
    }
  }

  lemma SortedWildcards(entries: seq<Entry>)
    ensures var ws := ContextOf(entries).wildcards;
      LongestSuffixFirst(ws) && forall w :: w in ws <==> w in WildcardsOf(entries)
  {
    SortIsStable(WildcardsOf(entries), NegativeSuffix, (x, y) => true);
    SameMembers(WildcardsOf(entries), NegativeSuffix);
  }

  /** An exact domain name wins. */
  lemma ExactWins(entries: seq<Entry>, policy: Policy, e: Entry)
    requires UniqueNames(entries) && e in entries && !IsWildcard(e.name)
    ensures ForName(ContextOf(entries), policy, e.name) == e.effective
  {
    ExactHolds(entries, e);
  }

  /** Without an exact one, the longest covering wildcard wins. */
  lemma LongestWildcardWins(entries: seq<Entry>, policy: Policy, name: string, e: Entry)
    requires UniqueNames(entries) && forall x <- entries :: x.name == name ==> IsWildcard(x.name)
    requires e in entries && CoveredBy(e, name)
    requires forall x <- entries :: CoveredBy(x, name) ==> |x.name| <= |e.name|
    ensures ForName(ContextOf(entries), policy, name) == e.effective
  {
    var ws := ContextOf(entries).wildcards;
    var mine := Wildcard(e.name[1..], e.effective);
    ExactHolds(entries, Entry(name, e.effective));
    SortedWildcards(entries);
    FirstCovers(ws, name);
    WildcardsAre(entries, mine);
    var found := FindWildcard(ws, name).value;
    WildcardsAre(entries, found);
    var x :| x in entries && IsWildcard(x.name) && found == Wildcard(x.name[1..], x.effective);
    assert CoveredBy(x, name);
    SameSuffixSameName(x.name, e.name, name);
  }

  lemma SameSuffixSameName(a: string, b: string, name: string)
    requires IsWildcard(a) && IsWildcard(b) && EndsWith(name, a[1..]) && EndsWith(name, b[1..]) && |a| == |b|
    ensures a == b
  {
    assert a == "*" + a[1..] && b == "*" + b[1..];
  }

  /** Where no entry applies, the global policy does. */
  lemma OthersAreGlobal(entries: seq<Entry>, policy: Policy, name: string)
    requires UniqueNames(entries)
    requires forall x <- entries :: (x.name == name ==> IsWildcard(x.name)) && !CoveredBy(x, name)
    ensures ForName(ContextOf(entries), policy, name) == GlobalEffective(policy)
  {
    var ws := ContextOf(entries).wildcards;
    ExactHolds(entries, Entry(name, GlobalEffective(policy)));
    SortedWildcards(entries);
    FirstCovers(ws, name);
    if FindWildcard(ws, name).Some? {
      WildcardsAre(entries, FindWildcard(ws, name).value);
    }
  }

  lemma {:induction false} LongestCovering(entries: seq<Entry>, name: string) returns (e: Option<Entry>)
    ensures e.None? ==> forall x <- entries :: !CoveredBy(x, name)
    ensures e.Some? ==> e.value in entries && CoveredBy(e.value, name)
    ensures e.Some? ==> forall x <- entries :: CoveredBy(x, name) ==> |x.name| <= |e.value.name|
  {
    if entries == [] {
      return None;
    }
    var init, last := entries[..|entries| - 1], entries[|entries| - 1];
    assert entries == init + [last];
    e := LongestCovering(init, name);
    if CoveredBy(last, name) && (e.None? || |last.name| > |e.value.name|) {
      e := Some(last);
    }
  }

  /** The order of hosts and domain names plays no part. */
  lemma NameOrderDoesNotMatter(a: seq<Entry>, b: seq<Entry>, policy: Policy, name: string)
    requires UniqueNames(a) && forall e :: e in a <==> e in b
    ensures ForName(ContextOf(a), policy, name) == ForName(ContextOf(b), policy, name)
  {
    hide ContextOf, ForName, CoveredBy, IsWildcard;
    if e :| e in a && e.name == name && !IsWildcard(e.name) {
      ExactWins(a, policy, e);
      ExactWins(b, policy, e);
    } else {
      var e := LongestCovering(a, name);
      if e.Some? {
        LongestWildcardWins(a, policy, name, e.value);
        LongestWildcardWins(b, policy, name, e.value);
      } else {
        OthersAreGlobal(a, policy, name);
        OthersAreGlobal(b, policy, name);
      }
    }
  }

  // ----- What every resolution keeps -----

  lemma {:induction false} EntriesCome(policy: Policy, hosts: seq<Host>, groups: seq<Group>, e: Entry)
    ensures e in Entries(policy, hosts, groups) <==>
      exists h :: h in hosts && e in EntriesOf(h.domainNames, HostEffective(h, policy, groups))
  {
    if hosts != [] {
      var init, last := hosts[..|hosts| - 1], hosts[|hosts| - 1];
      assert hosts == init + [last] && last in hosts;
      EntriesCome(policy, init, groups, e);
    }
  }

  lemma {:induction false} EntriesOfAre(names: seq<string>, effective: Effective, e: Entry)
    ensures e in EntriesOf(names, effective) <==>
      e.effective == effective && e.name != "" && exists n :: n in names && e.name == NormalizeHostname(n)
  {
    if names != [] {
      var init, last := names[..|names| - 1], names[|names| - 1];
      assert names == init + [last] && last in names;
      EntriesOfAre(init, effective, e);
    }
  }

  /** Whatever applies to a name is some host's policy or the global one. */
  lemma ForNameComesFrom(policy: Policy, hosts: seq<Host>, groups: seq<Group>, name: string)
    ensures var r := ForName(ContextOf(Entries(policy, hosts, groups)), policy, name);
      r == GlobalEffective(policy) || exists h :: h in hosts && r == HostEffective(h, policy, groups)
  {
    var entries := Entries(policy, hosts, groups);
    var r := ForName(ContextOf(entries), policy, name);
    if r != GlobalEffective(policy) {
      var e := ForNameIsEntry(entries, policy, name);
      EntriesCome(policy, hosts, groups, e);
      var h :| h in hosts && e in EntriesOf(h.domainNames, HostEffective(h, policy, groups));
      EntriesOfAre(h.domainNames, HostEffective(h, policy, groups), e);
    }
  }

  lemma ForNameIsEntry(entries: seq<Entry>, policy: Policy, name: string) returns (e: Entry)
    requires ForName(ContextOf(entries), policy, name) != GlobalEffective(policy)
    ensures e in entries && e.effective == ForName(ContextOf(entries), policy, name)
  {
    if name in ExactOf(entries) {
      e := ExactIsEntry(entries, name);
    } else {
      var ws := ContextOf(entries).wildcards;
      SortedWildcards(entries);
      FirstCovers(ws, name);
      var w := FindWildcard(ws, name).value;
      WildcardsAre(entries, w);
      e :| e in entries && IsWildcard(e.name) && w == Wildcard(e.name[1..], e.effective);
    }
  }

  lemma {:induction false} ExactIsEntry(entries: seq<Entry>, name: string) returns (e: Entry)
    requires name in ExactOf(entries)
    ensures e in entries && e.effective == ExactOf(entries)[name]
  {
    var init, last := entries[..|entries| - 1], entries[|entries| - 1];
    if !IsWildcard(last.name) && last.name == name {
      e := last;
    } else {
      e := ExactIsEntry(init, name);
    }
  }

  /** Automatic responses are on exactly when they are enabled globally and the mode that
      applies is an enforcing one; this holds through every layer. */
  lemma EnabledIffEnforcing(policy: Policy, hosts: seq<Host>, groups: seq<Group>, hostname: string, path: string)
    ensures var r := Resolve(ContextOf(Entries(policy, hosts, groups)), policy, hostname, path);
      r.autoBlockEnabled <==> policy.autoBlockEnabled && Enforcing(r.settings.mode)
  {
    hide ContextOf, ForName;
    ForNameComesFrom(policy, hosts, groups, NormalizeHostname(hostname));
  }

  lemma HostRulesResolved(host: Host, policy: Policy, groups: seq<Group>)
    requires NoInherit(policy.rules)
    ensures NoInherit(HostEffective(host, policy, groups).settings.rules)
  {}

  /** Every rule that applies to a request has an action of its own. */
  lemma NothingLeftToInherit(policy: Policy, hosts: seq<Host>, groups: seq<Group>, hostname: string, path: string)
    requires NoInherit(policy.rules)
    ensures NoInherit(Resolve(ContextOf(Entries(policy, hosts, groups)), policy, hostname, path).settings.rules)
  {
    hide ContextOf, ForName, HostEffective;
    ForNameComesFrom(policy, hosts, groups, NormalizeHostname(hostname));
    forall h | h in hosts
      ensures NoInherit(HostEffective(h, policy, groups).settings.rules)
    {
      HostRulesResolved(h, policy, groups);
    }
  }

  /** The normaliser gives the global policy such rules. */
  lemma NormalizedRulesResolved(raw: map<RuleKey, Action>)
    ensures NoInherit(NormalizeRules(raw, DEFAULT_PROTECTION_RULES, false))
  {}

  lemma LayersAgree(host: Host, policy: Policy, groups: seq<Group>)
    ensures HostEffective(host, policy, groups).settings == HostPolicyEntry(host, policy, GroupForHost(groups, host.id))
    ensures HostEffective(host, policy, groups).proxyHostId == Some(host.id)
  {}

  /** Which entry decides for a name: the one with that name, otherwise the longest wildcard
      that covers it. */
  ghost predicate DecidesFor(entries: seq<Entry>, e: Entry, name: string) {
    e in entries &&
    if IsWildcard(e.name) then
      (forall x <- entries :: x.name == name ==> IsWildcard(x.name)) && CoveredBy(e, name) &&
      forall x <- entries :: CoveredBy(x, name) ==> |x.name| <= |e.name|
    else e.name == name
  }

  lemma DecidingEntryWins(entries: seq<Entry>, policy: Policy, e: Entry, name: string)
    requires UniqueNames(entries) && DecidesFor(entries, e, name)
    ensures ForName(ContextOf(entries), policy, name) == e.effective
  {
    hide ForName, ContextOf, CoveredBy;
    if IsWildcard(e.name) {
      LongestWildcardWins(entries, policy, name, e);
    } else {
      ExactWins(entries, policy, e);
    }
  }

  /** A request that one of a host's names decides for, exact or wildcard, and that no endpoint
      rule touches gets exactly the policy shown for that host. */
  lemma RequestsGetShownPolicy(policy: Policy, hosts: seq<Host>, groups: seq<Group>, host: Host, domain: string,
                               hostname: string, path: string)
    requires UniqueNames(Entries(policy, hosts, groups)) && host in hosts && domain in host.domainNames
    requires DecidesFor(Entries(policy, hosts, groups), Entry(NormalizeHostname(domain), HostEffective(host, policy, groups)),
      NormalizeHostname(hostname))
    requires FindRule(HostPolicyEntry(host, policy, GroupForHost(groups, host.id)).endpointRules, PathOf(path)).None?
    ensures var r := Resolve(ContextOf(Entries(policy, hosts, groups)), policy, hostname, path);
      r.settings == HostPolicyEntry(host, policy, GroupForHost(groups, host.id)) && r.proxyHostId == Some(host.id)
  {
    hide HostPolicyEntry, HostEffective, ContextOf, ForName, DecidesFor, UniqueNames, NormalizeHostname;
    var e := Entry(NormalizeHostname(domain), HostEffective(host, policy, groups));
    DecidingEntryWins(Entries(policy, hosts, groups), policy, e, NormalizeHostname(hostname));
    LayersAgree(host, policy, groups);
  }

  /** Every usable name of a host has its entry, and where names are unique some entry decides
      for every name that any entry stands for. */
  lemma SomeEntryDecides(policy: Policy, hosts: seq<Host>, groups: seq<Group>, name: string) returns (e: Option<Entry>)
    ensures e.Some? ==> DecidesFor(Entries(policy, hosts, groups), e.value, name)
    ensures e.Some? ==>
      exists h, d :: h in hosts && d in h.domainNames && e.value == Entry(NormalizeHostname(d), HostEffective(h, policy, groups))
    ensures e.None? ==> forall x <- Entries(policy, hosts, groups) :: (x.name == name ==> IsWildcard(x.name)) && !CoveredBy(x, name)
  {
    hide NormalizeHostname, HostEffective, CoveredBy, IsWildcard;
    var entries := Entries(policy, hosts, groups);
    if x :| x in entries && x.name == name && !IsWildcard(x.name) {
      e := Some(x);
    } else {
      e := LongestCovering(entries, name);
      CoveringIsWildcard(entries, name);
    }
    if e.Some? {
      EntriesCome(policy, hosts, groups, e.value);
      var h :| h in hosts && e.value in EntriesOf(h.domainNames, HostEffective(h, policy, groups));
      EntriesOfAre(h.domainNames, HostEffective(h, policy, groups), e.value);
    }
  }

  lemma CoveringIsWildcard(entries: seq<Entry>, name: string)
    ensures forall x <- entries :: CoveredBy(x, name) ==> IsWildcard(x.name)
  {}

  // ----- Endpoint rules in force -----

  lemma NormalizedLongestRulesFirst(raw: RawSettings, global: Policy)
    ensures LongestFirst(NormalizeHostPolicy(raw, global).endpointRules)
  {
    NormalizedLongestFirst(raw.endpointRules);
  }

  /** With host policies as the normaliser leaves them, the endpoint rule that adjusts a
      request is the longest one that matches its path. */
  lemma LongestEndpointRuleApplies(policy: Policy, hosts: seq<Host>, groups: seq<Group>, hostname: string, path: string)
    requires forall id <- policy.hostPolicies :: LongestFirst(policy.hostPolicies[id].endpointRules)
    ensures var context := ContextOf(Entries(policy, hosts, groups));
      var rules := ForName(context, policy, NormalizeHostname(hostname)).settings.endpointRules;
      var r := Resolve(context, policy, hostname, path);
      var asked := if path == "" then "/" else path;
      if r.endpointRulePath.None? then forall rule <- rules :: !EndpointRules.Matches(rule, asked)
      else exists rule ::
          IsLongest(rules, asked, rule) &&
          r.endpointRulePath == Some(rule.pathPrefix) && r.settings.mode == rule.mode
  {
    hide ContextOf, ForName;
    var base := ForName(ContextOf(Entries(policy, hosts, groups)), policy, NormalizeHostname(hostname));
    ForNameComesFrom(policy, hosts, groups, NormalizeHostname(hostname));
    assert LongestFirst(base.settings.endpointRules) by {
      if base != GlobalEffective(policy) {
        var h :| h in hosts && base == HostEffective(h, policy, groups);
        GroupRulesLongestFirst(GroupForHost(groups, h.id), policy);
      }
    }
    FirstIsLongest(base.settings.endpointRules, PathOf(path));
  }

  lemma GroupRulesLongestFirst(group: Option<Group>, policy: Policy)
    ensures var g := GroupPolicy(group, policy); g.Some? ==> LongestFirst(g.value.endpointRules)
  {
    NormalizedLongestFirst([]);
  }
}
