/** The layers of the protection policy, said in terms of what was entered: a host's own policy
    over that of its group over the global one, for every request one of its names decides. */
module PolicyLayers {
  import opened Wrappers
  import opened Sequences
  import opened Texts
  import opened EndpointRules
  import opened HostPolicy

  // ----- Names -----

  /** No name is given to two hosts. */
  ghost predicate OneHostPerName(hosts: seq<Host>) {
    forall h, i, c, d :: h in hosts && i in hosts && c in h.domainNames && d in i.domainNames ==>
      NormalizeHostname(c) != NormalizeHostname(d) || NormalizeHostname(c) == "" || h.id == i.id
  }

  ghost predicate IsNameOf(hosts: seq<Host>, name: string) {
    name != "" && exists h, d :: h in hosts && d in h.domainNames && NormalizeHostname(d) == name
  }

  /** A name with a star in place of everything before some dot. */
  predicate Stars(pattern: string, name: string) {
    |pattern| > 1 && pattern[0] == '*' && pattern[1] == '.' && exists i :: 0 <= i <= |name| && name[i..] == pattern[1..]
  }

  /** Which of the hosts' names decides for a name: that name itself, otherwise the longest name
      with a star that fits. */
  ghost predicate NameDecides(hosts: seq<Host>, decider: string, name: string) {
    IsNameOf(hosts, decider) &&
    if Starred(decider) then
      (IsNameOf(hosts, name) ==> Starred(name)) && Stars(decider, name) &&
      forall x :: IsNameOf(hosts, x) && Stars(x, name) ==> |x| <= |decider|
    else decider == name
  }

  predicate Starred(name: string) { |name| > 1 && name[0] == '*' && name[1] == '.' }

  // ----- Layers -----

  /** The first group with the host among its members. */
  ghost predicate IsGroupOf(groups: seq<Group>, hostId: int, group: Option<Group>) {
    match group
    case None => forall g <- groups :: hostId !in g.hostIds
    case Some(g) => hostId in g.hostIds && exists i :: 0 <= i < |groups| && groups[i] == g && NoneBefore(groups, hostId, i)
  }

  predicate NoneBefore(groups: seq<Group>, hostId: int, i: nat)
    requires i <= |groups|
  {
    forall j :: 0 <= j < i ==> hostId !in groups[j].hostIds
  }

  /** The action entered for the host, or else for its group, or else globally. */
  function EnteredAction(policy: Policy, group: Option<Group>, hostId: int, key: RuleKey): Action {
    if hostId in policy.hostPolicies && policy.hostPolicies[hostId].rules.Get(key) != Inherit then
      policy.hostPolicies[hostId].rules.Get(key)
    else if group.Some? && key in group.value.rules && group.value.rules[key] != Inherit then group.value.rules[key]
    else policy.rules.Get(key)
  }

  function EnteredMode(policy: Policy, group: Option<Group>, hostId: int): Mode {
    if hostId in policy.hostPolicies then policy.hostPolicies[hostId].mode
    else if group.Some? && group.value.securityMode.Some? then group.value.securityMode.value
    else if policy.autoBlockEnabled then Protect
    else Observe
  }

  // ----- One host -----

  lemma {:induction false} GroupIs(groups: seq<Group>, hostId: int)
    ensures IsGroupOf(groups, hostId, GroupForHost(groups, hostId))
  {
    if groups != [] && hostId !in groups[0].hostIds {
      GroupIs(groups[1..], hostId);
      var g := GroupForHost(groups[1..], hostId);
      if g.Some? {
        var i :| 0 <= i < |groups[1..]| && groups[1..][i] == g.value && NoneBefore(groups[1..], hostId, i);
        assert groups[i + 1] == g.value;
        assert forall j :: 0 < j < i + 1 ==> groups[j] == groups[1..][j - 1];
        assert NoneBefore(groups, hostId, i + 1);
      } else {
        assert groups == [groups[0]] + groups[1..];
      }
    }
  }

  lemma {:induction false} OneGroup(groups: seq<Group>, hostId: int, group: Option<Group>)
    requires IsGroupOf(groups, hostId, group)
    ensures GroupForHost(groups, hostId) == group
  {
    GroupIs(groups, hostId);
    var found := GroupForHost(groups, hostId);
    if found.Some? && group.Some? {
      var i :| 0 <= i < |groups| && groups[i] == group.value && NoneBefore(groups, hostId, i);
      var k :| 0 <= k < |groups| && groups[k] == found.value && NoneBefore(groups, hostId, k);
      assert i == k;
    }
  }

  lemma HostGetsEntered(host: Host, policy: Policy, groups: seq<Group>, group: Option<Group>, key: RuleKey)
    requires IsGroupOf(groups, host.id, group)
    ensures var r := HostEffective(host, policy, groups);
      r.proxyHostId == Some(host.id) && r.settings.mode == EnteredMode(policy, group, host.id) &&
      r.settings.rules.Get(key) == EnteredAction(policy, group, host.id, key) &&
      r.settings.endpointRules == if host.id in policy.hostPolicies then policy.hostPolicies[host.id].endpointRules else []
  {
    hide NormalizeHostPolicy, GroupForHost, GroupPolicy, IsGroupOf;
    OneGroup(groups, host.id, group);
    GroupIsEntered(group, policy, key);
  }

  lemma GroupIsEntered(group: Option<Group>, policy: Policy, key: RuleKey)
    ensures match GroupPolicy(group, policy)
      case None =>
        group.None? ||
        (group.value.securityMode.None? && (key in group.value.rules ==> group.value.rules[key] == Inherit))
      case Some(g) =>
        group.Some? && g.endpointRules == [] &&
        g.mode == (if group.value.securityMode.Some? then group.value.securityMode.value else GlobalMode(policy)) &&
        g.rules.Get(key) == if key in group.value.rules then group.value.rules[key] else Inherit
  {
    hide Clamp, Or, Min, Max;
    NoEndpointRules();
  }

  lemma NoEndpointRules()
    ensures NormalizeEndpointRules([]) == []
  {}

  // ----- All requests -----

  lemma StarsCover(pattern: string, effective: Effective, name: string)
    ensures CoveredBy(Entry(pattern, effective), name) <==> Stars(pattern, name)
  {
    if CoveredBy(Entry(pattern, effective), name) {
      assert name[|name| - |pattern[1..]|..] == pattern[1..];
      assert "*." <= pattern;
    }
    if Stars(pattern, name) {
      var i :| 0 <= i <= |name| && name[i..] == pattern[1..];
      assert i == |name| - |pattern[1..]|;
      assert pattern[..2] == "*.";
    }
  }

  lemma StarredIs(name: string)
    ensures IsWildcard(name) <==> Starred(name)
  {
    assert |name| > 1 ==> name[..2] == [name[0], name[1]];
  }

  lemma EntryOfName(policy: Policy, hosts: seq<Host>, groups: seq<Group>, h: Host, d: string)
    requires h in hosts && d in h.domainNames && NormalizeHostname(d) != ""
    ensures Entry(NormalizeHostname(d), HostEffective(h, policy, groups)) in Entries(policy, hosts, groups)
  {
    hide NormalizeHostname, HostEffective;
    var e := Entry(NormalizeHostname(d), HostEffective(h, policy, groups));
    EntriesOfAre(h.domainNames, e.effective, e);
    EntriesCome(policy, hosts, groups, e);
  }

  lemma NameOfEntry(policy: Policy, hosts: seq<Host>, groups: seq<Group>, e: Entry) returns (h: Host, d: string)
    requires e in Entries(policy, hosts, groups)
    ensures h in hosts && d in h.domainNames && e == Entry(NormalizeHostname(d), HostEffective(h, policy, groups)) && e.name != ""
    ensures IsNameOf(hosts, e.name)
  {
    hide NormalizeHostname, HostEffective;
    EntriesCome(policy, hosts, groups, e);
    h :| h in hosts && e in EntriesOf(h.domainNames, HostEffective(h, policy, groups));
    EntriesOfAre(h.domainNames, HostEffective(h, policy, groups), e);
    d :| d in h.domainNames && e.name == NormalizeHostname(d);
  }

  lemma SameHostSameEffect(a: Host, b: Host, policy: Policy, groups: seq<Group>)
    requires a.id == b.id
    ensures HostEffective(a, policy, groups) == HostEffective(b, policy, groups)
  {}

  lemma NamesAreUnique(policy: Policy, hosts: seq<Host>, groups: seq<Group>)
    requires OneHostPerName(hosts)
    ensures UniqueNames(Entries(policy, hosts, groups))
  {
    hide NormalizeHostname, HostEffective;
    var entries := Entries(policy, hosts, groups);
    forall a, b | a in entries && b in entries && a.name == b.name
      ensures a.effective == b.effective
    {
      var h, c := NameOfEntry(policy, hosts, groups, a);
      var i, d := NameOfEntry(policy, hosts, groups, b);
      SameHostSameEffect(h, i, policy, groups);
    }
  }

  lemma NameDecidesFor(policy: Policy, hosts: seq<Host>, groups: seq<Group>, host: Host, domain: string, name: string)
    requires host in hosts && domain in host.domainNames && NameDecides(hosts, NormalizeHostname(domain), name)
    ensures DecidesFor(Entries(policy, hosts, groups), Entry(NormalizeHostname(domain), HostEffective(host, policy, groups)), name)
  {
    hide NormalizeHostname, HostEffective, CoveredBy, IsWildcard, Stars, Starred;
    var entries := Entries(policy, hosts, groups);
    var e := Entry(NormalizeHostname(domain), HostEffective(host, policy, groups));
    EntryOfName(policy, hosts, groups, host, domain);
    StarredIs(e.name);
    StarsCover(e.name, e.effective, name);
    forall x | x in entries
      ensures x.name == name && Starred(e.name) ==> IsWildcard(x.name)
      ensures CoveredBy(x, name) && Starred(e.name) ==> |x.name| <= |e.name|
    {
      var _, _ := NameOfEntry(policy, hosts, groups, x);
      StarredIs(x.name);
      StarsCover(x.name, x.effective, name);
    }
  }

  /** A request that one of a host's names decides for gets, for every kind of attack, the action
      entered for the host, or where it inherits the one of its group, or where that inherits the
      global one.  Its mode is that of the layers in the same order, unless an endpoint rule of
      the host adjusts it. */
  lemma HostOverGroupOverGlobal(policy: Policy, hosts: seq<Host>, groups: seq<Group>, group: Option<Group>,
                                host: Host, domain: string, hostname: string, path: string)
    requires OneHostPerName(hosts) && host in hosts && domain in host.domainNames && IsGroupOf(groups, host.id, group)
    requires NameDecides(hosts, NormalizeHostname(domain), NormalizeHostname(hostname))
    ensures var r := Resolve(ContextOf(Entries(policy, hosts, groups)), policy, hostname, path);
      r.proxyHostId == Some(host.id) &&
      (forall key :: r.settings.rules.Get(key) == EnteredAction(policy, group, host.id, key)) &&
      if r.endpointRulePath.None? then r.settings.mode == EnteredMode(policy, group, host.id)
      else
        host.id in policy.hostPolicies &&
        EndpointRule(r.endpointRulePath.value, r.settings.mode) in policy.hostPolicies[host.id].endpointRules
  {
    hide HostEffective, ContextOf, Entries, ForName, DecidesFor, UniqueNames, NormalizeHostname, EnteredAction, EnteredMode, OneHostPerName,
      NameDecides, IsGroupOf;
    var entries := Entries(policy, hosts, groups);
    var effective := HostEffective(host, policy, groups);
    NamesAreUnique(policy, hosts, groups);
    NameDecidesFor(policy, hosts, groups, host, domain, NormalizeHostname(hostname));
    DecidingEntryWins(entries, policy, Entry(NormalizeHostname(domain), effective), NormalizeHostname(hostname));
    forall key: RuleKey
      ensures effective.settings.rules.Get(key) == EnteredAction(policy, group, host.id, key)
    {
      HostGetsEntered(host, policy, groups, group, key);
    }
    HostGetsEntered(host, policy, groups, group, Crawler);
    RuleFoundIsThere(effective.settings.endpointRules, PathOf(path));
  }

  lemma {:induction false} RuleFoundIsThere(rules: seq<EndpointRule>, path: string)
    ensures FindRule(rules, path).Some? ==> FindRule(rules, path).value in rules
  {
    if rules != [] { RuleFoundIsThere(rules[1..], path); }
  }

  /** The rules as entered: what is missing inherits; globally, what is missing or inherits takes
      the fallback. */
  lemma RulesAreEntered(raw: map<RuleKey, Action>, fallback: Rules, key: RuleKey)
    ensures NormalizeRules(raw, fallback, true).Get(key) == if key in raw then raw[key] else Inherit
    ensures NormalizeRules(raw, fallback, false).Get(key) ==
      if key in raw && raw[key] != Inherit then raw[key] else fallback.Get(key)
  {}

  // ----- Numbers -----

  predicate UsableGlobal(p: Policy) {
    40 <= p.rateLimitThreshold <= 100 && 1 <= p.rateLimitMinutes <= 43_200 &&
    80 <= p.blockThreshold <= 100 && 1 <= p.blockMinutes <= 43_200
  }

  /** The global numbers; zero stands for the default of the whole system. */
  function Effectively(p: Policy): Policy {
    p.(rateLimitThreshold := if p.rateLimitThreshold == 0 then 50 else p.rateLimitThreshold,
       rateLimitMinutes := if p.rateLimitMinutes == 0 then 10 else p.rateLimitMinutes,
       blockThreshold := if p.blockThreshold == 0 then 95 else p.blockThreshold,
       blockMinutes := if p.blockMinutes == 0 then 60 else p.blockMinutes)
  }

  /** The value is the entered one, moved into the range; nothing or zero stands for the default. */
  predicate Entered(value: int, entered: Option<int>, low: int, high: int, default: int) {
    low <= value <= high &&
    match entered
    case Some(n) =>
      if n == 0 then value == default else (low <= n <= high ==> value == n) && (n < low ==> value == low) && (n > high ==> value == high)
    case None => value == default
  }

  /** A host's numbers are those entered for it, within their ranges; what is left out comes from
      the global policy, and is sharper in strict mode, where challenges have at least 16 bits. */
  lemma NumbersAreEntered(raw: RawSettings, policy: Policy)
    requires UsableGlobal(Effectively(policy))
    ensures var s, global := NormalizeHostPolicy(raw, policy), Effectively(policy);
      var strict := raw.mode == Some(Strict);
      s.mode == (if raw.mode.Some? then raw.mode.value else Observe) &&
      Entered(s.rateLimitThreshold, raw.rateLimitThreshold, 40, 100,
        if strict && global.rateLimitThreshold > 45 then 45 else global.rateLimitThreshold) &&
      Entered(s.rateLimitMinutes, raw.rateLimitMinutes, 1, 43_200, global.rateLimitMinutes) &&
      Entered(s.blockThreshold, raw.blockThreshold, 80, 100, if strict && global.blockThreshold > 90 then 90 else global.blockThreshold) &&
      Entered(s.blockMinutes, raw.blockMinutes, 1, 43_200, global.blockMinutes) &&
      Entered(s.challengeMinutes, raw.challengeMinutes, 1, 120,
        if s.rateLimitMinutes < 5 then 5 else if s.rateLimitMinutes > 30 then 30 else s.rateLimitMinutes) &&
      (if strict then Entered(s.challengeDifficulty, raw.challengeDifficulty, 16, 22, 16)
       else Entered(s.challengeDifficulty, raw.challengeDifficulty, 10, 22, 14))
  {
    hide NormalizeEndpointRules;
  }

  /** An endpoint rule leaves the numbers of its host as they are, except that a strict one caps the
      thresholds at 45 and 90 and lifts the difficulty to 16.  No path stands for the root. */
  lemma StrictRulesSharpen(context: Context, policy: Policy, hostname: string, path: string)
    ensures var base := ForName(context, policy, NormalizeHostname(hostname)).settings;
      var r := Resolve(context, policy, hostname, path).settings;
      r.rateLimitMinutes == base.rateLimitMinutes && r.blockMinutes == base.blockMinutes &&
      r.challengeMinutes == base.challengeMinutes && r.rules == base.rules &&
      if Resolve(context, policy, hostname, path).endpointRulePath.Some? && r.mode == Strict then
        r.rateLimitThreshold == (if base.rateLimitThreshold > 45 then 45 else base.rateLimitThreshold) &&
        r.blockThreshold == (if base.blockThreshold > 90 then 90 else base.blockThreshold) &&
        r.challengeDifficulty == if base.challengeDifficulty < 16 then 16 else base.challengeDifficulty
      else
        r.rateLimitThreshold == base.rateLimitThreshold && r.blockThreshold == base.blockThreshold &&
        r.challengeDifficulty == base.challengeDifficulty
    ensures Resolve(context, policy, hostname, "") == Resolve(context, policy, hostname, "/")
  {
    hide ForName, NormalizeHostname;
  }
}
