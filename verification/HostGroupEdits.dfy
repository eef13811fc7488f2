/** What editing a group does to the group itself: what is left out of an edit stays as it was. */
module HostGroupEdits {
  import opened Wrappers
  import opened Sequences
  import opened Addresses
  import opened HostAccess
  import opened HostAccessRuns

  // ----- Stored groups are tidy -----

  predicate UsableIds(ids: seq<int>) {
    |ids| <= 500 && (forall i :: 0 <= i < |ids| ==> ids[i] > 0) && forall i, j :: 0 <= i < j < |ids| ==> ids[i] != ids[j]
  }

  predicate UsableSources(sources: seq<Target>) {
    |sources| <= 250 && (forall i :: 0 <= i < |sources| ==> ValidTarget(sources[i])) &&
    forall i, j :: 0 <= i < j < |sources| ==> sources[i] != sources[j]
  }

  predicate Tidy(g: Group) {
    UsableIds(g.hostIds) && UsableSources(g.sources) && (g.mode.Allowlist? ==> g.sources != [])
  }

  ghost predicate AllTidy(groups: seq<Group>) {
    forall g <- groups :: Tidy(g)
  }

  lemma {:induction false} DistinctStays<T>(s: seq<T>, usable: T -> bool)
    requires NoDuplicates(s) && forall i :: 0 <= i < |s| ==> usable(s[i])
    ensures Distinct(s, usable) == s
  {
    if s != [] {
      var n := |s| - 1;
      DistinctStays(s[..n], usable);
      assert s == s[..n] + [s[n]];
    }
  }

  lemma IdsAreUsable(ids: seq<int>)
    ensures UsableIds(NormalizeHostIds(ids))
    ensures UsableIds(ids) ==> NormalizeHostIds(ids) == ids
  {
    var usable := (id: int) => id > 0;
    var r := Distinct(ids, usable);
    assert forall i :: 0 <= i < |r| ==> r[i] in r;
    if UsableIds(ids) {
      DistinctStays(ids, usable);
    }
  }

  lemma SourcesAreUsable(sources: seq<Target>)
    ensures UsableSources(NormalizeSources(sources))
    ensures UsableSources(sources) ==> NormalizeSources(sources) == sources
  {
    hide ValidTarget;
    var r := Distinct(sources, ValidTarget);
    assert forall i :: 0 <= i < |r| ==> r[i] in r;
    if UsableSources(sources) {
      DistinctStays(sources, ValidTarget);
    }
  }

  lemma StoredIsTidy(input: GroupInput, existing: Option<Group>, id: nat)
    ensures NormalizeGroup(input, existing, id).Ok? ==> Tidy(NormalizeGroup(input, existing, id).value)
  {
    hide UsableIds, UsableSources, NormalizeHostIds, NormalizeSources;
    IdsAreUsable(input.hostIds.GetOr(if existing.Some? then existing.value.hostIds else []));
    SourcesAreUsable(input.sources.GetOr(if existing.Some? then existing.value.sources else []));
  }

  lemma {:induction false} WithoutShrinks(ids: seq<int>, others: seq<int>)
    requires NoDuplicates(ids)
    ensures NoDuplicates(Without(ids, others)) && |Without(ids, others)| <= |ids|
  {
    if ids != [] {
      var n := |ids| - 1;
      WithoutShrinks(ids[..n], others);
      assert forall i :: 0 <= i < n ==> ids[i] != ids[n];
    }
  }

  lemma ReplacedIsTidy(groups: seq<Group>, group: Group)
    requires AllTidy(groups) && Tidy(group)
    ensures AllTidy(Replaced(groups, group))
  {
    hide UsableSources;
    forall i | 0 <= i < |groups|
      ensures Tidy(Replaced(groups, group)[i])
    {
      assert groups[i] in groups;
      var rest := Without(groups[i].hostIds, group.hostIds);
      WithoutShrinks(groups[i].hostIds, group.hostIds);
      assert forall j :: 0 <= j < |rest| ==> rest[j] in rest;
    }
  }

  lemma NextIsTidy(current: State, op: Op, hosts: set<int>, id: nat)
    requires !op.AddHost? && !op.RemoveHost? && AllTidy(current.groups)
    ensures match NextState(current, op, hosts, id)
      case Ok(Some(next)) => AllTidy(next.groups)
      case _ => true
  {
    hide Tidy, NormalizeGroup, NormalizeHostAccess, NormalizeSources, GroupById, AllExist;
    match op
    case Create(input) =>
      StoredIsTidy(input, None, id);
      if NormalizeGroup(input, None, id).Ok? {
        ReplacedIsTidy(current.groups, NormalizeGroup(input, None, id).value);
      }
    case Update(groupId, input) =>
      var existing := GroupById(current.groups, groupId);
      StoredIsTidy(input, existing, groupId);
      if NormalizeGroup(input, existing, groupId).Ok? {
        ReplacedIsTidy(current.groups, NormalizeGroup(input, existing, groupId).value);
      }
    case _ =>
  }

  /** No operation, failed or not, stores a group that is not tidy. */
  lemma StepKeepsTidy(store: Store, op: Op, fault: Fault)
    requires AllTidy(store.disk.groups)
    ensures AllTidy(Step(store, op, fault).disk.groups)
  {
    hide Tidy, NextState, BuildHostAcl, GeoOf;
    var current := ReadBack(store.disk);
    assert forall g :: g in current.groups ==> g in store.disk.groups;
    if !op.AddHost? && !op.RemoveHost? {
      NextIsTidy(current, op, store.hosts, store.nextId);
    }
  }

  // ----- What is refused -----

  /** A group is created exactly when there is room, the group is usable and its hosts exist; one is
      changed exactly when it is there and the same holds. */
  lemma EditAcceptedIff(current: State, input: GroupInput, id: nat, hosts: set<int>, n: nat)
    ensures NextState(current, Create(input), hosts, n).Ok? <==>
      |current.groups| < 100 && NormalizeGroup(input, None, n).Ok? &&
      forall h <- NormalizeGroup(input, None, n).value.hostIds :: h in hosts
    ensures NextState(current, Update(id, input), hosts, n).Ok? <==>
      (exists g :: g in current.groups && g.id == id) && NormalizeGroup(input, GroupById(current.groups, id), id).Ok? &&
      forall h <- NormalizeGroup(input, GroupById(current.groups, id), id).value.hostIds :: h in hosts
  {
    hide NormalizeGroup, GroupById, AllExist;
    FoundIffThere(current.groups, id);
    if NormalizeGroup(input, None, n).Ok? {
      AllExistMeans(NormalizeGroup(input, None, n).value.hostIds, hosts);
    }
    if NormalizeGroup(input, GroupById(current.groups, id), id).Ok? {
      AllExistMeans(NormalizeGroup(input, GroupById(current.groups, id), id).value.hostIds, hosts);
    }
  }

  lemma AllExistMeans(ids: seq<int>, hosts: set<int>)
    ensures AllExist(ids, hosts) <==> forall h <- ids :: h in hosts
  {
    if AllExist(ids, hosts) {
      forall h | h in ids
        ensures h in hosts
      {
        var i :| 0 <= i < |ids| && ids[i] == h;
      }
    }
    if forall h <- ids :: h in hosts {
      assert forall i :: 0 <= i < |ids| ==> ids[i] in ids;
    }
  }

  lemma {:induction false} FoundIffThere(groups: seq<Group>, id: nat)
    ensures GroupById(groups, id).Some? <==> exists g :: g in groups && g.id == id
  {
    if groups != [] {
      assert groups == [groups[0]] + groups[1..];
      FoundIffThere(groups[1..], id);
    }
  }

  /** A policy is set exactly when the host is there and an allow list has a usable source; it is
      cleared exactly when the host is there. */
  lemma AccessAcceptedIff(current: State, h: int, mode: Option<AccessMode>, sources: seq<Target>, hosts: set<int>, n: nat)
    ensures NextState(current, SetAccess(h, mode, sources), hosts, n).Ok? <==>
      h >= 1 && h in hosts && (mode == Some(Allowlist) ==> exists s :: s in sources && ValidTarget(s))
    ensures NextState(current, ClearAccess(h), hosts, n).Ok? <==> h >= 1 && h in hosts
    ensures NextState(current, SetAccess(h, mode, sources), hosts, n) == Ok(None) ==>
      if mode.Some? then
        h in current.hostAccess && current.hostAccess[h].mode == mode.value && Follows(current.hostAccess[h].sources, sources)
      else h !in current.hostAccess && forall s <- sources :: !ValidTarget(s)
    ensures h >= 1 && h in hosts && mode.None? && h !in current.hostAccess && (forall s <- sources :: !ValidTarget(s)) ==>
      NextState(current, SetAccess(h, mode, sources), hosts, n) == Ok(None)
  {
    hide ValidTarget, Distinct;
    GivenIsFollowed(sources);
    var kept := NormalizeSources(sources);
    assert kept != [] ==> kept[0] in kept;
  }

  /** Each run of line breaks in a name is one space. */
  lemma {:induction false} LineBreaksAreSpaces(line: string, breaks: string, rest: string)
    requires breaks != "" && (forall c <- line :: !IsBreak(c)) && (forall c <- breaks :: IsBreak(c))
    requires rest == "" || !IsBreak(rest[0])
    ensures OneLine(line + breaks + rest) == line + " " + OneLine(rest)
  {
    if line != "" {
      assert (line + breaks + rest)[1..] == line[1..] + breaks + rest;
      LineBreaksAreSpaces(line[1..], breaks, rest);
      assert line == [line[0]] + line[1..];
    } else if |breaks| > 1 {
      assert (line + breaks + rest)[1..] == line + breaks[1..] + rest;
      LineBreaksAreSpaces(line, breaks[1..], rest);
      assert breaks[0] in breaks && breaks[1] in breaks;
    } else {
      assert breaks[0] in breaks;
      assert (line + breaks + rest)[1..] == rest;
    }
  }

  // ----- Edits -----

  lemma {:induction false} ReplacedIsFound(groups: seq<Group>, group: Group)
    requires GroupById(groups, group.id).Some?
    ensures GroupById(Replaced(groups, group), group.id) == Some(group)
  {
    var r := Replaced(groups, group);
    if groups[0].id != group.id {
      ReplacedIsFound(groups[1..], group);
      assert r[1..] == Replaced(groups[1..], group);
    }
  }

  lemma {:induction false} FoundIsThere(groups: seq<Group>, id: nat)
    ensures GroupById(groups, id).Some? ==> GroupById(groups, id).value in groups && GroupById(groups, id).value.id == id
  {
    if groups != [] && groups[0].id != id {
      FoundIsThere(groups[1..], id);
    }
  }

  /** The given list without repetitions and what is unusable, cut at the limit. */
  ghost predicate Follows(stored: seq<Target>, given: seq<Target>) {
    (forall s <- stored :: s in given && ValidTarget(s)) &&
    (|stored| < 250 ==> forall s <- given :: ValidTarget(s) ==> s in stored)
  }

  lemma GivenIsFollowed(given: seq<Target>)
    ensures Follows(NormalizeSources(given), given)
  {
    hide ValidTarget;
    var r := Distinct(given, ValidTarget);
    assert forall s <- NormalizeSources(given) :: s in r;
  }

  /** A changed group has the mode, the sources and the hosts it was given; where one of these was
      left out, that of the group before. */
  lemma LeftOutIsKept(current: State, id: nat, input: GroupInput, hosts: set<int>, n: nat)
    requires AllTidy(current.groups)
    requires NextState(current, Update(id, input), hosts, n).Ok?
    ensures var next := NextState(current, Update(id, input), hosts, n).value;
      next.Some? && GroupById(current.groups, id).Some? && GroupById(next.value.groups, id).Some? &&
      var before, after := GroupById(current.groups, id).value, GroupById(next.value.groups, id).value;
      after.mode == (if input.mode.Some? then input.mode.value else before.mode) &&
      (if input.sources.Some? then Follows(after.sources, input.sources.value) else after.sources == before.sources) &&
      (if input.hostIds.Some? then forall h <- after.hostIds :: h in input.hostIds.value && h in hosts
       else after.hostIds == before.hostIds) &&
      next.value.hostAccess == current.hostAccess
  {
    hide UsableIds, UsableSources, NormalizeHostIds, NormalizeSources, Follows, GroupById, Replaced;
    var before := GroupById(current.groups, id).value;
    var group := NormalizeGroup(input, Some(before), id).value;
    FoundIsThere(current.groups, id);
    assert Tidy(before);
    IdsAreUsable(before.hostIds);
    SourcesAreUsable(before.sources);
    GivenIsFollowed(input.sources.GetOr([]));
    ReplacedIsFound(current.groups, group);
    if input.hostIds.Some? {
      GivenHosts(input.hostIds.value);
    }
  }

  lemma GivenHosts(given: seq<int>)
    ensures forall h <- NormalizeHostIds(given) :: h in given
  {
    assert forall h <- NormalizeHostIds(given) :: h in Distinct(given, (id: int) => id > 0);
  }

  /** A new group is open and empty in all that is left out, and an allow list without a usable
      source is refused. */
  lemma NewGroupIs(input: GroupInput, id: nat)
    ensures match NormalizeGroup(input, None, id)
      case Ok(g) =>
        g.id == id && g.name != "" && |g.name| <= 80 && g.mode == (if input.mode.Some? then input.mode.value else Open) &&
        (if input.sources.Some? then Follows(g.sources, input.sources.value) else g.sources == []) &&
        (input.hostIds.None? ==> g.hostIds == [])
      case Err(NameRequired) => true
      case Err(e) =>
        e == SourcesRequired && input.mode == Some(Allowlist) &&
        (input.sources.None? || forall s <- input.sources.value :: !ValidTarget(s))
  {
    assert NormalizeHostIds([]) == [] && NormalizeSources([]) == [];
    hide ValidTarget, OneLine, NormalizeSources;
    GivenIsFollowed(input.sources.GetOr([]));
  }
}
