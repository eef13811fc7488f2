/** Host access control: groups and per-host overrides are compiled into nginx `geo` blocks,
    one variable each, and one rule per host that tests a variable. */
module HostAccess {
  import opened Wrappers
  import opened Sequences
  import opened Texts
  import opened Addresses

  const MAX_GROUPS: nat := 100
  const MAX_HOSTS_PER_GROUP: nat := 500
  const MAX_SOURCES_PER_GROUP: nat := 250
  const MAX_HOST_ACCESS_POLICIES: nat := 1000

  datatype AccessMode = Open | Allowlist | Denylist

  /** Group ids are unique; they are numbered here in the order of creation. */
  datatype Group = Group(id: nat, name: string, hostIds: seq<int>, mode: AccessMode, sources: seq<Target>)

  /** A host's own policy.  One that inherits is not stored. */
  datatype AccessPolicy = AccessPolicy(mode: AccessMode, sources: seq<Target>)

  datatype State = State(groups: seq<Group>, hostAccess: map<int, AccessPolicy>)

  // ----- Normalisation -----

  /** The usable elements in order, each once. */
  function Distinct<T(==)>(s: seq<T>, usable: T -> bool): (r: seq<T>)
    ensures NoDuplicates(r) && forall x <- r :: x in s && usable(x)
    ensures forall x <- s :: usable(x) ==> x in r
  {
    if s == [] then []
    else
      var r, x := Distinct(s[..|s| - 1], usable), s[|s| - 1];
      if usable(x) && x !in r then r + [x] else r
  }

  function Take<T>(s: seq<T>, n: nat): (r: seq<T>)
    ensures r <= s && |r| <= n
  {
    s[..Min(|s|, n)]
  }

  function NormalizeHostIds(ids: seq<int>): seq<int> {
    Take(Distinct(ids, (id: int) => id > 0), MAX_HOSTS_PER_GROUP)
  }

  function NormalizeSources(sources: seq<Target>): seq<Target> {
    Take(Distinct(sources, ValidTarget), MAX_SOURCES_PER_GROUP)
  }

  predicate IsBreak(c: char) { c == '\r' || c == '\n' }

  /** Each run of line breaks becomes one space. */
  function OneLine(s: string): (r: string)
    ensures |r| <= |s| && forall c <- r :: !IsBreak(c)
  {
    if s == [] then []
    else if !IsBreak(s[0]) then [s[0]] + OneLine(s[1..])
    else if |s| > 1 && IsBreak(s[1]) then OneLine(s[1..])
    else [' '] + OneLine(s[1..])
  }

  /** What a caller gives for a group; what is left out is taken from the existing group. */
  datatype GroupInput = GroupInput(name: Option<string>, hostIds: Option<seq<int>>,
                                   mode: Option<AccessMode>, sources: Option<seq<Target>>)

  datatype Error = NameRequired | SourcesRequired | TooManyGroups | UnknownHost(id: int) | UnknownGroup | InvalidHostId | NotApplied

  function NormalizeGroup(input: GroupInput, existing: Option<Group>, id: nat): Result<Group, Error> {
    var name := Take(Trim(OneLine(
      if input.name.Some? then input.name.value else if existing.Some? then existing.value.name else "")), 80);
    var mode := input.mode.GetOr(if existing.Some? then existing.value.mode else Open);
    var sources := NormalizeSources(input.sources.GetOr(if existing.Some? then existing.value.sources else []));
    if name == "" then Err(NameRequired)
    else if mode.Allowlist? && sources == [] then Err(SourcesRequired)
    else Ok(Group(id, name, NormalizeHostIds(input.hostIds.GetOr(if existing.Some? then existing.value.hostIds else [])), mode, sources))
  }

  /** None stands for a policy that inherits. */
  function NormalizeHostAccess(mode: Option<AccessMode>, sources: seq<Target>): Result<Option<AccessPolicy>, Error> {
    match mode
    case None => Ok(None)
    case Some(m) =>
      if m.Allowlist? && NormalizeSources(sources) == [] then Err(SourcesRequired)
      else Ok(Some(AccessPolicy(m, NormalizeSources(sources))))
  }

  // ----- Reading the stored state -----

  /** How many stored policies come before this host's, in the order of host ids. */
  function RankIn(hostAccess: map<int, AccessPolicy>, id: int): nat {
    |set k | k in hostAccess && k < id|
  }

  /** Reading keeps the first groups and, by host id, the first thousand host policies. */
  function ReadBack(disk: State): State {
    State(Take(disk.groups, MAX_GROUPS),
      map id | id in disk.hostAccess && RankIn(disk.hostAccess, id) < MAX_HOST_ACCESS_POLICIES :: disk.hostAccess[id])
  }

  // ----- Compilation -----

  /** The variables the generated configuration uses; different owners never share one. */
  datatype Variable = GroupVar(group: nat) | HostVar(host: int)

  datatype Rule = AllowAll | DenyIfZero(variable: Variable) | DenyIfOne(variable: Variable)

  type Geo = map<Variable, seq<Target>>

  function GroupById(groups: seq<Group>, id: nat): Option<Group> {
    if groups == [] then None
    else if groups[0].id == id then Some(groups[0])
    else GroupById(groups[1..], id)
  }

  function GroupForHost(groups: seq<Group>, hostId: int): Option<Group> {
    if groups == [] then None
    else if hostId in groups[0].hostIds then Some(groups[0])
    else GroupForHost(groups[1..], hostId)
  }

  /** The sources of the block a variable stands for, if there is one: one block per group and
      per host policy that is not open. */
  function SourcesFor(state: State, v: Variable): Option<seq<Target>> {
    match v
    case GroupVar(id) =>
      var group := GroupById(state.groups, id);
      if group.Some? && !group.value.mode.Open? then Some(group.value.sources) else None
    case HostVar(id) =>
      if id in state.hostAccess && !state.hostAccess[id].mode.Open? then Some(state.hostAccess[id].sources) else None
  }

  ghost predicate IsGeoOf(geo: Geo, state: State) {
    forall v :: Lookup(geo, v) == SourcesFor(state, v)
  }

  lemma {:induction false} GroupByIdOf(groups: seq<Group>, k: nat)
    requires UniqueIds(groups) && k < |groups|
    ensures GroupById(groups, groups[k].id) == Some(groups[k])
  {
    if k > 0 {
      GroupByIdOf(groups[1..], k - 1);
    }
  }

  lemma {:induction false} GroupByIdGrows(groups: seq<Group>, g: Group, id: nat)
    requires forall i :: 0 <= i < |groups| ==> groups[i].id != g.id
    ensures GroupById(groups + [g], id) == if id == g.id then Some(g) else GroupById(groups, id)
  {
    if groups != [] {
      GroupByIdGrows(groups[1..], g, id);
      assert (groups + [g])[1..] == groups[1..] + [g];
    }
  }

  lemma GeoGrows(geo: Geo, groups: seq<Group>, g: Group)
    requires IsGeoOf(geo, State(groups, map[])) && forall i :: 0 <= i < |groups| ==> groups[i].id != g.id
    ensures IsGeoOf(if g.mode.Open? then geo else geo[GroupVar(g.id) := g.sources], State(groups + [g], map[]))
  {
    forall v
      ensures Lookup(if g.mode.Open? then geo else geo[GroupVar(g.id) := g.sources], v) == SourcesFor(State(groups + [g], map[]), v)
    {
      assert Lookup(geo, v) == SourcesFor(State(groups, map[]), v);
      if v.GroupVar? {
        GroupByIdGrows(groups, g, v.group);
        GroupByIdNone(groups, g.id);
      }
    }
  }

  lemma {:induction false} GroupByIdNone(groups: seq<Group>, id: nat)
    requires forall i :: 0 <= i < |groups| ==> groups[i].id != id
    ensures GroupById(groups, id).None?
  {
    if groups != [] {
      GroupByIdNone(groups[1..], id);
    }
  }

  lemma HasMember(s: set<int>)
    ensures s == {} || exists x :: x in s
  {
    if forall x :: x !in s {
      assert s == {};
    }
  }

  method BuildGeoConfig(state: State) returns (geo: Geo)
    requires UniqueIds(state.groups)
    ensures IsGeoOf(geo, state)
  {
    geo := map[];
    var g := 0;
    while g < |state.groups|
      invariant 0 <= g <= |state.groups|
      invariant IsGeoOf(geo, State(state.groups[..g], map[]))
    {
      var group := state.groups[g];
      GeoGrows(geo, state.groups[..g], group);
      assert state.groups[..g + 1] == state.groups[..g] + [group];
      if !group.mode.Open? {
        geo := geo[GroupVar(group.id) := group.sources];
      }
      g := g + 1;
    }
    assert state.groups[..|state.groups|] == state.groups;
    var left := state.hostAccess.Keys;
    while left != {}
      invariant left <= state.hostAccess.Keys
      invariant forall v :: Lookup(geo, v) == if v.HostVar? && v.host in left then None else SourcesFor(state, v)
      decreases left
    {
      HasMember(left);
      var hostId :| hostId in left;
      left := left - {hostId};
      var policy := state.hostAccess[hostId];
      if policy.mode.Allowlist? || policy.mode.Denylist? {
        geo := geo[HostVar(hostId) := policy.sources];
      }
    }
  }

  function BuildHostAcl(state: State, hostId: int): Rule {
    if hostId in state.hostAccess then
      match state.hostAccess[hostId].mode
      case Open => AllowAll
      case Allowlist => DenyIfZero(HostVar(hostId))
      case Denylist => DenyIfOne(HostVar(hostId))
    else
      match GroupForHost(state.groups, hostId)
      case None => AllowAll
      case Some(group) =>
        match group.mode
        case Open => AllowAll
        case Allowlist => DenyIfZero(GroupVar(group.id))
        case Denylist => DenyIfOne(GroupVar(group.id))
  }

  // ----- What the compiled configuration does -----

  predicate InSources(sources: seq<Target>, ip: Address): (r: bool)
    ensures r <==> exists s :: s in sources && Contains(s, ip)
  {
    exists i :: 0 <= i < |sources| && Contains(sources[i], ip)
  }

  /** The rule's variable is defined, as nginx demands. */
  predicate Loads(geo: Geo, rule: Rule) {
    rule.AllowAll? || rule.variable in geo
  }

  /** Evaluating a host's rule: its variable is 1 for the listed addresses, otherwise 0. */
  predicate Denies(geo: Geo, rule: Rule, ip: Address)
    requires Loads(geo, rule)
  {
    match rule
    case AllowAll => false
    case DenyIfZero(v) => !InSources(geo[v], ip)
    case DenyIfOne(v) => InSources(geo[v], ip)
  }

  // ----- The direct reading -----

  datatype View = View(mode: AccessMode, sources: seq<Target>)

  /** The host's own policy, otherwise that of its group, otherwise open. */
  function HostAccessView(state: State, hostId: int): View {
    if hostId in state.hostAccess then View(state.hostAccess[hostId].mode, state.hostAccess[hostId].sources)
    else
      match GroupForHost(state.groups, hostId)
      case Some(group) => View(group.mode, group.sources)
      case None => View(Open, [])
  }

  predicate ViewDenies(v: View, ip: Address) {
    match v.mode
    case Open => false
    case Allowlist => !InSources(v.sources, ip)
    case Denylist => InSources(v.sources, ip)
  }

  ghost predicate UniqueIds(groups: seq<Group>) {
    forall i, j :: 0 <= i < j < |groups| ==> groups[i].id != groups[j].id
  }

  lemma {:induction false} GroupIndex(groups: seq<Group>, hostId: int) returns (i: nat)
    requires GroupForHost(groups, hostId).Some?
    ensures i < |groups| && groups[i] == GroupForHost(groups, hostId).value && hostId in groups[i].hostIds
  {
    if hostId in groups[0].hostIds {
      i := 0;
    } else {
      i := GroupIndex(groups[1..], hostId);
      i := i + 1;
    }
  }

  /** The compiled configuration of a state loads, and denies an address to a host exactly when
      the direct reading of the state does. */
  lemma CompiledAgrees(state: State, geo: Geo, hostId: int, ip: Address)
    requires UniqueIds(state.groups)
    requires forall v :: SourcesFor(state, v).Some? ==> Lookup(geo, v) == SourcesFor(state, v)
    ensures Loads(geo, BuildHostAcl(state, hostId))
    ensures Denies(geo, BuildHostAcl(state, hostId), ip) <==> ViewDenies(HostAccessView(state, hostId), ip)
  {
    hide InSources;
    if hostId in state.hostAccess {
      assert SourcesFor(state, HostVar(hostId)).Some? || state.hostAccess[hostId].mode.Open?;
    } else if GroupForHost(state.groups, hostId).Some? {
      var group := GroupForHost(state.groups, hostId).value;
      var i := GroupIndex(state.groups, hostId);
      GroupByIdOf(state.groups, i);
      assert SourcesFor(state, GroupVar(group.id)).Some? || group.mode.Open?;
    }
  }
}
