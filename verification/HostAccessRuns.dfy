/** Runs of the host-access store: every operation reads the stored state, computes the next
    one, compiles it for nginx, reloads, and stores it; what fails is rolled back. */
module HostAccessRuns {
  import opened Wrappers
  import opened Addresses
  import opened HostAccess

  /** The state file, the compiled configuration, the proxy hosts there are and ever were, and
      the next group id. */
  datatype Store = Store(disk: State, geo: Geo, acl: map<int, Rule>, hosts: set<int>, known: set<int>, nextId: nat)

  datatype Fault = Works | Fails(restored: bool)

  ghost function Variables(state: State): set<Variable> {
    (set i | 0 <= i < |state.groups| :: GroupVar(state.groups[i].id)) + (set id | id in state.hostAccess :: HostVar(id))
  }

  ghost function GeoOf(state: State): Geo {
    map v | v in Variables(state) && SourcesFor(state, v).Some? :: SourcesFor(state, v).value
  }

  lemma GeoOfIsGeo(state: State)
    ensures IsGeoOf(GeoOf(state), state)
  {
    forall v
      ensures Lookup(GeoOf(state), v) == SourcesFor(state, v)
    {
      if v.GroupVar? && GroupById(state.groups, v.group).Some? {
        var i := IndexById(state.groups, v.group);
        assert v == GroupVar(state.groups[i].id);
      }
    }
  }

  lemma {:induction false} IndexById(groups: seq<Group>, id: nat) returns (i: nat)
    requires GroupById(groups, id).Some?
    ensures i < |groups| && groups[i].id == id
  {
    if groups[0].id == id {
      i := 0;
    } else {
      i := IndexById(groups[1..], id);
      i := i + 1;
    }
  }

  /** The configuration written for a state: its blocks, and a rule for every proxy host. */
  ghost function WriteRuntime(store: Store, state: State): Store {
    store.(geo := GeoOf(state), acl := map h | h in store.hosts :: BuildHostAcl(state, h))
  }

  ghost function ApplyNext(store: Store, next: State, fault: Fault): Store {
    match fault
    case Works => WriteRuntime(store, next).(disk := next)
    case Fails(restored) => WriteRuntime(store, if restored then ReadBack(store.disk) else next)
  }

  // ----- The operations -----

  datatype Op =
    | Create(input: GroupInput)
    | Update(id: nat, input: GroupInput)
    | Delete(id: nat)
    | SetAccess(hostId: int, mode: Option<AccessMode>, sources: seq<Target>)
    | ClearAccess(hostId: int)
    | AddHost(hostId: int)
    | RemoveHost(hostId: int)

  function Without(ids: seq<int>, others: seq<int>): (r: seq<int>)
    ensures forall id <- r :: id in ids && id !in others
    ensures forall id <- ids :: id !in others ==> id in r
  {
    if ids == [] then []
    else
      var r := Without(ids[..|ids| - 1], others);
      if ids[|ids| - 1] in others then r else r + [ids[|ids| - 1]]
  }

  /** The groups with some hosts taken out, and one group replaced. */
  function Replaced(groups: seq<Group>, group: Group): (r: seq<Group>)
    ensures |r| == |groups|
    ensures forall i :: 0 <= i < |r| ==> r[i].id == groups[i].id
  {
    seq(|groups|, i requires 0 <= i < |groups| =>
      if groups[i].id == group.id then group else groups[i].(hostIds := Without(groups[i].hostIds, group.hostIds)))
  }

  function RemoveGroup(groups: seq<Group>, id: nat): (r: seq<Group>)
    ensures forall g <- r :: g in groups && g.id != id
  {
    if groups == [] then []
    else
      var r := RemoveGroup(groups[..|groups| - 1], id);
      if groups[|groups| - 1].id == id then r else r + [groups[|groups| - 1]]
  }

  predicate AllExist(ids: seq<int>, hosts: set<int>) {
    forall i :: 0 <= i < |ids| ==> ids[i] in hosts
  }

  /** The state an operation leads to; none when there is nothing to change. */
  function NextState(current: State, op: Op, hosts: set<int>, id: nat): Result<Option<State>, Error>
    requires !op.AddHost? && !op.RemoveHost?
  {
    match op
    case Create(input) =>
      if |current.groups| >= MAX_GROUPS then Err(TooManyGroups)
      else
        (match NormalizeGroup(input, None, id)
         case Err(e) => Err(e)
         case Ok(group) =>
           if !AllExist(group.hostIds, hosts) then Err(UnknownHost(0))
           else Ok(Some(current.(groups := Replaced(current.groups, group) + [group]))))
    case Update(groupId, input) =>
      (match GroupById(current.groups, groupId)
       case None => Err(UnknownGroup)
       case Some(existing) =>
         match NormalizeGroup(input, Some(existing), groupId)
         case Err(e) => Err(e)
         case Ok(group) =>
           if !AllExist(group.hostIds, hosts) then Err(UnknownHost(0))
           else Ok(Some(current.(groups := Replaced(current.groups, group)))))
    case Delete(groupId) =>
      if GroupById(current.groups, groupId).None? then Ok(None)
      else Ok(Some(current.(groups := RemoveGroup(current.groups, groupId))))
    case SetAccess(hostId, mode, sources) =>
      if hostId < 1 then Err(InvalidHostId)
      else if hostId !in hosts then Err(UnknownHost(hostId))
      else
        (match NormalizeHostAccess(mode, sources)
         case Err(e) => Err(e)
         case Ok(policy) =>
           // A policy that inherits but names sources is written, though it stores nothing.
           if Lookup(current.hostAccess, hostId) == policy && (policy.None? ==> NormalizeSources(sources) == []) then Ok(None)
           else Ok(Some(current.(hostAccess :=
             if policy.Some? then current.hostAccess[hostId := policy.value] else current.hostAccess - {hostId}))))
    case ClearAccess(hostId) =>
      if hostId < 1 then Err(InvalidHostId)
      else if hostId !in hosts then Err(UnknownHost(hostId))
      else if hostId !in current.hostAccess then Ok(None)
      else Ok(Some(current.(hostAccess := current.hostAccess - {hostId})))
  }

  function WithoutPolicy(state: State, hostId: int): State {
    state.(hostAccess := state.hostAccess - {hostId})
  }

  function HostAdded(store: Store, h: int, rule: Rule): Store {
    store.(hosts := store.hosts + {h}, known := store.known + {h}, acl := store.acl[h := rule])
  }

  function HostRemoved(store: Store, h: int, disk: State): Store {
    store.(hosts := store.hosts - {h}, acl := store.acl - {h}, disk := disk)
  }

  ghost function Step(store: Store, op: Op, fault: Fault): Store {
    var current := ReadBack(store.disk);
    match op
    case AddHost(h) =>
      if h in store.known || h < 1 then store else HostAdded(store, h, BuildHostAcl(current, h))
    case RemoveHost(h) =>
      HostRemoved(store, h, if h in current.hostAccess then WithoutPolicy(current, h) else store.disk)
    case _ =>
      match NextState(current, op, store.hosts, store.nextId)
      case Ok(Some(next)) => ApplyNext(store, next, fault).(nextId := store.nextId + 1)
      case _ => store
  }

  // ----- Invariants -----

  /** Every host is in at most one group. */
  ghost predicate Exclusive(groups: seq<Group>) {
    forall i, j, h :: 0 <= i < j < |groups| && h in groups[i].hostIds ==> h !in groups[j].hostIds
  }

  ghost predicate WellFormed(store: Store) {
    var d := store.disk;
    UniqueIds(d.groups) && Exclusive(d.groups) && |d.groups| <= MAX_GROUPS &&
    (forall i :: 0 <= i < |d.groups| ==> d.groups[i].id < store.nextId) &&
    d.hostAccess.Keys <= store.known && store.hosts <= store.known && |d.hostAccess| <= MAX_HOST_ACCESS_POLICIES
  }

  /** The running configuration is the one compiled from the state.  Blocks of hosts that are
      gone may remain. */
  ghost predicate Runs(store: Store, state: State) {
    (forall v :: SourcesFor(state, v).Some? ==> Lookup(store.geo, v) == SourcesFor(state, v)) &&
    store.acl.Keys == store.hosts && forall h <- store.hosts :: store.acl[h] == BuildHostAcl(state, h)
  }

  ghost predicate Consistent(store: Store) {
    WellFormed(store) && Runs(store, store.disk)
  }

  /** For every proxy host the running configuration denies what the shown policy says. */
  ghost predicate ShownIsEnforced(store: Store) {
    forall h, ip :: h in store.hosts ==> EnforcedAt(store, h, ip)
  }

  ghost predicate EnforcedAt(store: Store, h: int, ip: Address) {
    h in store.acl && Loads(store.geo, store.acl[h]) &&
    (Denies(store.geo, store.acl[h], ip) <==> ViewDenies(HostAccessView(ReadBack(store.disk), h), ip))
  }

  // ----- Reading back -----

  lemma RankBound(m: map<int, AccessPolicy>, id: int)
    requires id in m
    ensures RankIn(m, id) < |m|
  {
    var before := set k | k in m && k < id;
    assert before < m.Keys;
    SmallerSet(before, m.Keys);
  }

  lemma SmallerSet(a: set<int>, b: set<int>)
    requires a < b
    ensures |a| < |b|
  {
    assert b == a + (b - a) && |b - a| > 0;
  }

  lemma RankGrows(m: map<int, AccessPolicy>, a: int, b: int)
    requires a in m && b in m && a < b
    ensures RankIn(m, a) < RankIn(m, b)
  {
    var x, y := set k | k in m && k < a, set k | k in m && k < b;
    assert a in y && a !in x;
    SmallerSet(x, y);
  }

  /** Within the limits nothing is lost by storing and reading. */
  lemma ReadBackSame(state: State)
    requires |state.groups| <= 100 && |state.hostAccess| <= 1000
    ensures ReadBack(state) == state
  {
    forall id | id in state.hostAccess
      ensures RankIn(state.hostAccess, id) < MAX_HOST_ACCESS_POLICIES
    {
      RankBound(state.hostAccess, id);
    }
    assert Take(state.groups, MAX_GROUPS) == state.groups;
    assert ReadBack(state).hostAccess == state.hostAccess;
  }

  // ----- Steps keep the invariants -----

  lemma RuntimeRuns(store: Store, state: State)
    ensures Runs(WriteRuntime(store, state), state)
  {
    GeoOfIsGeo(state);
  }

  lemma ReplacedExclusive(groups: seq<Group>, group: Group)
    requires Exclusive(groups) && UniqueIds(groups)
    ensures Exclusive(Replaced(groups, group))
    ensures forall i, h :: 0 <= i < |groups| && groups[i].id != group.id && h in Replaced(groups, group)[i].hostIds ==> h !in group.hostIds
  {
    var r := Replaced(groups, group);
    forall i, j, h | 0 <= i < j < |r| && h in r[i].hostIds
      ensures h !in r[j].hostIds
    {
      assert groups[i].id != groups[j].id;
      assert groups[i].id != group.id && groups[j].id != group.id ==> h in groups[i].hostIds && h !in groups[j].hostIds;
    }
  }

  lemma CreateExclusive(groups: seq<Group>, group: Group)
    requires Exclusive(groups) && UniqueIds(groups) && forall i :: 0 <= i < |groups| ==> groups[i].id != group.id
    ensures Exclusive(Replaced(groups, group) + [group]) && UniqueIds(Replaced(groups, group) + [group])
  {
    ReplacedExclusive(groups, group);
    var r := Replaced(groups, group) + [group];
    forall i, j, h | 0 <= i < j < |r| && h in r[i].hostIds
      ensures h !in r[j].hostIds
    {
      assert j < |groups| ==> h in Replaced(groups, group)[i].hostIds;
    }
  }

  lemma {:induction false} RemoveGroupKeeps(groups: seq<Group>, id: nat)
    requires Exclusive(groups) && UniqueIds(groups)
    ensures var r := RemoveGroup(groups, id); Exclusive(r) && UniqueIds(r) && |r| <= |groups|
  {
    if groups != [] {
      var n := |groups| - 1;
      var init, last := groups[..n], groups[n];
      RemoveGroupKeeps(init, id);
      var r := RemoveGroup(init, id);
      forall i | 0 <= i < |r|
        ensures r[i].id != last.id && forall h <- r[i].hostIds :: h !in last.hostIds
      {
        assert r[i] in r;
        var k :| 0 <= k < n && init[k] == r[i];
        assert groups[k] == r[i];
      }
    }
  }

  /** An override added when the thousand places are taken. */
  predicate ExceedsLimit(store: Store, op: Op) {
    op.SetAccess? && op.mode.Some? && op.hostId !in store.disk.hostAccess &&
    |store.disk.hostAccess| >= MAX_HOST_ACCESS_POLICIES
  }

  ghost predicate GoodState(state: State, store: Store) {
    UniqueIds(state.groups) && Exclusive(state.groups) && |state.groups| <= MAX_GROUPS &&
    (forall i :: 0 <= i < |state.groups| ==> state.groups[i].id <= store.nextId) &&
    state.hostAccess.Keys <= store.known
  }

  lemma CreateIsGood(store: Store, input: GroupInput)
    requires WellFormed(store) && NextState(store.disk, Create(input), store.hosts, store.nextId).Ok?
    ensures GoodState(NextState(store.disk, Create(input), store.hosts, store.nextId).value.value, store)
  {
    hide NormalizeGroup, Exclusive, UniqueIds;
    var d := store.disk;
    var group := NormalizeGroup(input, None, store.nextId).value;
    GroupKeepsId(input, None, store.nextId);
    CreateExclusive(d.groups, group);
  }

  lemma UpdateIsGood(store: Store, id: nat, input: GroupInput)
    requires WellFormed(store) && NextState(store.disk, Update(id, input), store.hosts, store.nextId).Ok?
    ensures GoodState(NextState(store.disk, Update(id, input), store.hosts, store.nextId).value.value, store)
  {
    hide NormalizeGroup, Exclusive, GroupById;
    var d := store.disk;
    var existing := GroupById(d.groups, id);
    GroupKeepsId(input, existing, id);
    ReplacedExclusive(d.groups, NormalizeGroup(input, existing, id).value);
  }

  lemma DeleteIsGood(store: Store, id: nat)
    requires WellFormed(store) && NextState(store.disk, Delete(id), store.hosts, store.nextId).value.Some?
    ensures GoodState(NextState(store.disk, Delete(id), store.hosts, store.nextId).value.value, store)
  {
    var d := store.disk;
    RemoveGroupKeeps(d.groups, id);
    hide Exclusive, UniqueIds, GroupById;
    var r := RemoveGroup(d.groups, id);
    forall i | 0 <= i < |r|
      ensures r[i].id <= store.nextId
    {
      assert r[i] in d.groups;
    }
  }

  lemma AccessIsGood(store: Store, op: Op)
    requires WellFormed(store) && (op.SetAccess? || op.ClearAccess?)
    requires NextState(store.disk, op, store.hosts, store.nextId).Ok? && NextState(store.disk, op, store.hosts, store.nextId).value.Some?
    ensures var next := NextState(store.disk, op, store.hosts, store.nextId).value.value;
      GoodState(next, store) && (|next.hostAccess| <= MAX_HOST_ACCESS_POLICIES || ExceedsLimit(store, op))
  {
    hide Exclusive, UniqueIds, NormalizeSources;
    var before := store.disk.hostAccess;
    var id := op.hostId;
    SubsetSize((before - {id}).Keys, before.Keys);
  }

  lemma NextIsGood(store: Store, op: Op)
    requires WellFormed(store) && !op.AddHost? && !op.RemoveHost?
    requires NextState(store.disk, op, store.hosts, store.nextId).Ok? && NextState(store.disk, op, store.hosts, store.nextId).value.Some?
    ensures var next := NextState(store.disk, op, store.hosts, store.nextId).value.value;
      GoodState(next, store) &&
      (|next.hostAccess| <= MAX_HOST_ACCESS_POLICIES || ExceedsLimit(store, op))
  {
    hide NormalizeGroup, NormalizeHostAccess, Exclusive, UniqueIds, GoodState, GroupById;
    match op
    case Create(input) => CreateIsGood(store, input);
    case Update(id, input) => UpdateIsGood(store, id, input);
    case Delete(id) => DeleteIsGood(store, id);
    case SetAccess(_, _, _) => AccessIsGood(store, op);
    case ClearAccess(_) => AccessIsGood(store, op);
  }

  lemma GroupKeepsId(input: GroupInput, existing: Option<Group>, id: nat)
    ensures NormalizeGroup(input, existing, id).Ok? ==> NormalizeGroup(input, existing, id).value.id == id
  {}

  lemma SubsetSize(a: set<int>, b: set<int>)
    requires a <= b
    ensures |a| <= |b|
  {
    if a != b {
      SmallerSet(a, b);
    }
  }

  lemma HostAddedKeeps(store: Store, h: int)
    requires Consistent(store)
    ensures Consistent(HostAdded(store, h, BuildHostAcl(store.disk, h)))
  {
    hide SourcesFor, BuildHostAcl, Exclusive, UniqueIds;
    var next := HostAdded(store, h, BuildHostAcl(store.disk, h));
    assert next.acl.Keys == next.hosts;
  }

  lemma WithoutPolicyKeeps(state: State, hostId: int)
    ensures forall v :: SourcesFor(WithoutPolicy(state, hostId), v).Some? ==>
      SourcesFor(state, v) == SourcesFor(WithoutPolicy(state, hostId), v)
    ensures forall h :: h != hostId ==> BuildHostAcl(WithoutPolicy(state, hostId), h) == BuildHostAcl(state, h)
    ensures |WithoutPolicy(state, hostId).hostAccess| <= |state.hostAccess|
    ensures hostId !in state.hostAccess ==> WithoutPolicy(state, hostId) == state
  {
    hide GroupById, GroupForHost;
    SubsetSize((state.hostAccess - {hostId}).Keys, state.hostAccess.Keys);
    assert hostId !in state.hostAccess ==> state.hostAccess - {hostId} == state.hostAccess;
  }

  lemma RemovedWellFormed(store: Store, h: int)
    requires WellFormed(store)
    ensures WellFormed(HostRemoved(store, h, WithoutPolicy(store.disk, h)))
  {
    hide SourcesFor, BuildHostAcl, Exclusive, UniqueIds;
    WithoutPolicyKeeps(store.disk, h);
  }

  lemma RemovedRuns(store: Store, h: int)
    requires Runs(store, store.disk)
    ensures Runs(HostRemoved(store, h, WithoutPolicy(store.disk, h)), WithoutPolicy(store.disk, h))
  {
    hide SourcesFor, BuildHostAcl, WithoutPolicy;
    WithoutPolicyKeeps(store.disk, h);
    assert (store.acl - {h}).Keys == store.hosts - {h};
  }

  lemma HostStepKeeps(store: Store, op: Op, fault: Fault)
    requires Consistent(store) && (op.AddHost? || op.RemoveHost?)
    ensures Consistent(Step(store, op, fault))
  {
    hide WellFormed, Runs, HostAdded, WithoutPolicy, NextState, ReadBack, BuildHostAcl, SourcesFor;
    WithinLimits(store);
    ReadBackSame(store.disk);
    if op.AddHost? {
      HostAddedKeeps(store, op.hostId);
    } else {
      RemovedWellFormed(store, op.hostId);
      RemovedRuns(store, op.hostId);
      WithoutPolicyKeeps(store.disk, op.hostId);
    }
  }

  lemma WithinLimits(store: Store)
    requires WellFormed(store)
    ensures |store.disk.groups| <= MAX_GROUPS && |store.disk.hostAccess| <= MAX_HOST_ACCESS_POLICIES
  {
    hide UniqueIds, Exclusive;
  }

  /** A step whose rollback, if it needs one, works keeps the store consistent, unless it adds
      an override beyond the limit. */
  lemma StepKeeps(store: Store, op: Op, fault: Fault)
    requires Consistent(store) && (fault.Fails? ==> fault.restored) && !ExceedsLimit(store, op)
    ensures Consistent(Step(store, op, fault))
  {
    hide NextState, ReadBack, SourcesFor, GeoOf, ExceedsLimit, Exclusive, UniqueIds, BuildHostAcl;
    if op.AddHost? || op.RemoveHost? {
      HostStepKeeps(store, op, fault);
    } else {
      WithinLimits(store);
      ReadBackSame(store.disk);
      var r := NextState(store.disk, op, store.hosts, store.nextId);
      if r.Ok? && r.value.Some? {
        NextIsGood(store, op);
        RuntimeRuns(store, r.value.value);
        RuntimeRuns(store, store.disk);
      }
    }
  }

  /** In a consistent store every host has at most one group, and what is shown for a host is
      what nginx enforces for it. */
  lemma ConsistentShows(store: Store)
    requires Consistent(store)
    ensures Exclusive(ReadBack(store.disk).groups) && ShownIsEnforced(store)
  {
    ReadBackSame(store.disk);
    hide ReadBack, SourcesFor, BuildHostAcl, HostAccessView, Denies, Loads, ViewDenies;
    forall h, ip | h in store.hosts
      ensures EnforcedAt(store, h, ip)
    {
      CompiledAgrees(store.disk, store.geo, h, ip);
    }
  }

  const EMPTY := Store(State([], map[]), map[], map[], {}, {}, 0)

  ghost function Run(steps: seq<(Op, Fault)>): Store {
    if steps == [] then EMPTY
    else
      var (op, fault) := steps[|steps| - 1];
      Step(Run(steps[..|steps| - 1]), op, fault)
  }

  ghost predicate OrderlyRun(steps: seq<(Op, Fault)>) {
    forall k :: 0 <= k < |steps| ==>
      (steps[k].1.Fails? ==> steps[k].1.restored) && !ExceedsLimit(Run(steps[..k]), steps[k].0)
  }

  /** Every state reached by creating, changing and deleting groups, by editing host policies,
      and by adding and removing hosts: a host is in at most one group, and the compiled
      configuration denies what the shown policies say. */
  lemma {:induction false} ReachedStatesAgree(steps: seq<(Op, Fault)>)
    requires OrderlyRun(steps)
    ensures Consistent(Run(steps)) && Exclusive(Run(steps).disk.groups) && ShownIsEnforced(Run(steps))
  {
    hide Step, Consistent;
    if steps == [] {
      EmptyConsistent();
    } else {
      var n := |steps| - 1;
      var init := steps[..n];
      forall k | 0 <= k < n
        ensures (init[k].1.Fails? ==> init[k].1.restored) && !ExceedsLimit(Run(init[..k]), init[k].0)
      {
        assert init[..k] == steps[..k];
      }
      ReachedStatesAgree(init);
      StepKeeps(Run(init), steps[n].0, steps[n].1);
    }
    ConsistentShows(Run(steps));
    ConsistentExclusive(Run(steps));
  }

  lemma EmptyConsistent()
    ensures Consistent(EMPTY)
  {}

  lemma ConsistentExclusive(store: Store)
    requires Consistent(store)
    ensures Exclusive(store.disk.groups)
  {}

  // ----- Beyond the limit -----

  /** Adding the override number 1001 makes reading lose the one of the largest host id, while
      nginx goes on enforcing it.  What is shown is enforced then exactly when that host's own
      policy and the one it falls back to deny the same addresses. */
  lemma BeyondLimitIff(store: Store, op: Op, dropped: int)
    requires Consistent(store) && ExceedsLimit(store, op) && |store.disk.hostAccess| == 1000
    requires NextState(store.disk, op, store.hosts, store.nextId).Ok?
    requires var next := store.disk.hostAccess.Keys + {op.hostId};
      dropped in next && dropped in store.hosts && forall k <- next :: k <= dropped
    ensures var after := Step(store, op, Works);
      ShownIsEnforced(after) <==>
      forall ip :: ViewDenies(HostAccessView(after.disk, dropped), ip) <==>
        ViewDenies(HostAccessView(after.disk.(hostAccess := after.disk.hostAccess - {dropped}), dropped), ip)
  {
    hide Denies, Loads, ViewDenies, SourcesFor, GeoOf, BuildHostAcl, InSources, NormalizeSources;
    ReadBackSame(store.disk);
    var d := store.disk;
    var policy := NormalizeHostAccess(op.mode, op.sources).value.value;
    var next := d.(hostAccess := d.hostAccess[op.hostId := policy]);
    var after := Step(store, op, Works);
    assert after.disk == next;
    assert next.hostAccess.Keys == d.hostAccess.Keys + {op.hostId};
    assert |next.hostAccess| == MAX_HOST_ACCESS_POLICIES + 1;
    LargestIsDropped(next, dropped);
    var shown := ReadBack(next);
    RuntimeRuns(store, next);
    assert Runs(after, next);
    hide ReadBack, NextState;
    forall h, ip | h in store.hosts
      ensures EnforcedAt(after, h, ip) <==> (ViewDenies(HostAccessView(next, h), ip) <==> ViewDenies(HostAccessView(shown, h), ip))
    {
      CompiledAgrees(next, after.geo, h, ip);
    }
    assert forall h :: h != dropped ==> HostAccessView(next, h) == HostAccessView(shown, h);
    if ShownIsEnforced(after) {
      forall ip
        ensures ViewDenies(HostAccessView(next, dropped), ip) <==> ViewDenies(HostAccessView(shown, dropped), ip)
      {
        assert EnforcedAt(after, dropped, ip);
      }
    }
  }

  lemma LargestIsDropped(state: State, dropped: int)
    requires |state.groups| <= MAX_GROUPS && |state.hostAccess| == MAX_HOST_ACCESS_POLICIES + 1
    requires dropped in state.hostAccess && forall k <- state.hostAccess :: k <= dropped
    ensures ReadBack(state) == state.(hostAccess := state.hostAccess - {dropped})
  {
    var m := state.hostAccess;
    var before := set k | k in m && k < dropped;
    assert m.Keys == before + {dropped};
    assert RankIn(m, dropped) == MAX_HOST_ACCESS_POLICIES;
    forall k | k in m && k != dropped
      ensures RankIn(m, k) < MAX_HOST_ACCESS_POLICIES
    {
      RankGrows(m, k, dropped);
    }
    assert Take(state.groups, MAX_GROUPS) == state.groups;
    assert ReadBack(state).hostAccess == m - {dropped};
  }
}
