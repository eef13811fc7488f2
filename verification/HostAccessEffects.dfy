/** What each host-access operation changes: the policy shown for every host afterwards. */
module HostAccessEffects {
  import opened Wrappers
  import opened HostAccess
  import opened HostAccessRuns

  lemma ExclusiveTail(groups: seq<Group>)
    requires Exclusive(groups) && groups != []
    ensures Exclusive(groups[1..])
  {
    var tail := groups[1..];
    forall a, b, x | 0 <= a < b < |tail| && x in tail[a].hostIds
      ensures x !in tail[b].hostIds
    {
      assert x in groups[a + 1].hostIds;
    }
  }

  lemma {:induction false} FoundAt(groups: seq<Group>, i: nat, h: int)
    requires Exclusive(groups) && i < |groups| && h in groups[i].hostIds
    ensures GroupForHost(groups, h) == Some(groups[i])
  {
    if i > 0 {
      assert h !in groups[0].hostIds;
      ExclusiveTail(groups);
      FoundAt(groups[1..], i - 1, h);
    }
  }

  /** Two groups that differ in their members only. */
  predicate SamePolicy(a: Option<Group>, b: Option<Group>) {
    match a
    case None => b.None?
    case Some(g) => b.Some? && g == b.value.(hostIds := g.hostIds)
  }

  /** The group a creation or a change stores. */
  function Edited(op: Op, current: State, id: nat): Result<Group, Error>
    requires op.Create? || op.Update?
  {
    if op.Create? then NormalizeGroup(op.input, None, id)
    else NormalizeGroup(op.input, GroupById(current.groups, op.id), op.id)
  }

  function Others(group: Option<Group>, id: nat): Option<Group> {
    if group.Some? && group.value.id == id then None else group
  }

  lemma ReplacedTakesEffect(groups: seq<Group>, group: Group, next: seq<Group>, h: int)
    requires UniqueIds(groups) && Exclusive(groups) && Exclusive(next)
    requires if exists i :: 0 <= i < |groups| && groups[i].id == group.id
             then next == Replaced(groups, group) else next == Replaced(groups, group) + [group]
    ensures h in group.hostIds ==> GroupForHost(next, h) == Some(group)
    ensures h !in group.hostIds ==> SamePolicy(GroupForHost(next, h), Others(GroupForHost(groups, h), group.id))
  {
    if h in group.hostIds {
      if i :| 0 <= i < |groups| && groups[i].id == group.id {
        FoundAt(next, i, h);
      } else {
        FoundAt(next, |groups|, h);
      }
    } else {
      if GroupForHost(next, h).Some? {
        var i := GroupIndex(next, h);
        FoundAt(groups, i, h);
      }
      if GroupForHost(groups, h).Some? {
        var i := GroupIndex(groups, h);
        if groups[i].id != group.id {
          FoundAt(next, i, h);
        }
      }
    }
  }

  /** After a group is created or changed its hosts have that group and no other; every other
      host keeps the group it had, unless it was a member of the changed group. */
  lemma EditTakesEffect(store: Store, op: Op, h: int)
    requires WellFormed(store) && (op.Create? || op.Update?)
    requires NextState(store.disk, op, store.hosts, store.nextId).Ok?
    ensures var group := Edited(op, store.disk, store.nextId).value;
      var next := NextState(store.disk, op, store.hosts, store.nextId).value.value;
      next.hostAccess == store.disk.hostAccess &&
      (if h in group.hostIds then GroupForHost(next.groups, h) == Some(group)
       else SamePolicy(GroupForHost(next.groups, h), Others(GroupForHost(store.disk.groups, h), group.id)))
  {
    NextIsGood(store, op);
    var groups := store.disk.groups;
    var group := Edited(op, store.disk, store.nextId).value;
    if op.Create? {
      GroupKeepsId(op.input, None, store.nextId);
    } else {
      var i := IndexById(groups, op.id);
      GroupKeepsId(op.input, GroupById(groups, op.id), op.id);
    }
    hide NormalizeGroup, GroupById, Exclusive, UniqueIds, GroupForHost, SamePolicy, Others;
    ReplacedTakesEffect(groups, group, NextState(store.disk, op, store.hosts, store.nextId).value.value.groups, h);
  }

  lemma {:induction false} RemovedKeepsOthers(groups: seq<Group>, id: nat, g: Group)
    ensures g in RemoveGroup(groups, id) <==> g in groups && g.id != id
  {
    if groups != [] {
      var n := |groups| - 1;
      assert groups == groups[..n] + [groups[n]];
      RemovedKeepsOthers(groups[..n], id, g);
    }
  }

  lemma RemovedGroups(groups: seq<Group>, id: nat, h: int)
    requires Exclusive(groups) && Exclusive(RemoveGroup(groups, id))
    ensures GroupForHost(RemoveGroup(groups, id), h) == Others(GroupForHost(groups, h), id)
  {
    hide Exclusive, RemoveGroup, GroupForHost;
    var next := RemoveGroup(groups, id);
    if GroupForHost(next, h).Some? {
      var i := GroupIndex(next, h);
      RemovedKeepsOthers(groups, id, next[i]);
      var k :| 0 <= k < |groups| && groups[k] == next[i];
      FoundAt(groups, k, h);
    }
    if GroupForHost(groups, h).Some? {
      var i := GroupIndex(groups, h);
      RemovedKeepsOthers(groups, id, groups[i]);
      if groups[i].id != id {
        var k :| 0 <= k < |next| && next[k] == groups[i];
        FoundAt(next, k, h);
      }
    }
  }

  /** Deleting a group leaves its members without a group and changes nothing else. */
  lemma DeleteTakesEffect(store: Store, id: nat, h: int)
    requires WellFormed(store)
    requires GroupById(store.disk.groups, id).Some?
    ensures var next := NextState(store.disk, Delete(id), store.hosts, store.nextId).value.value;
      next.hostAccess == store.disk.hostAccess && GroupForHost(next.groups, h) == Others(GroupForHost(store.disk.groups, h), id)
  {
    hide Exclusive, UniqueIds, RemoveGroup, GroupForHost, Others;
    RemoveGroupKeeps(store.disk.groups, id);
    RemovedGroups(store.disk.groups, id, h);
  }

  /** Removing a host removes its own policy and its rule, and changes nothing for other hosts. */
  lemma RemovalTakesEffect(store: Store, h: int, fault: Fault, other: int)
    requires WellFormed(store) && other != h
    ensures var after := Step(store, RemoveHost(h), fault);
      h !in after.disk.hostAccess && h !in after.acl && h !in after.hosts &&
      Lookup(after.disk.hostAccess, other) == Lookup(store.disk.hostAccess, other) && after.disk.groups == store.disk.groups &&
      Lookup(after.acl, other) == Lookup(store.acl, other) && (other in after.hosts <==> other in store.hosts)
  {
    ReadBackSame(store.disk);
    hide ReadBack;
  }

  function PolicyOf(op: Op): Option<AccessPolicy>
    requires op.SetAccess? || op.ClearAccess?
  {
    if op.ClearAccess? then None
    else
      match NormalizeHostAccess(op.mode, op.sources)
      case Ok(policy) => policy
      case Err(_) => None
  }

  /** After a host's policy is set, that policy is shown for it; after it is cleared or set to
      inherit, what its group says.  Nothing changes for other hosts. */
  lemma AccessTakesEffect(current: State, op: Op, hosts: set<int>, id: nat, h: int)
    requires op.SetAccess? || op.ClearAccess?
    requires NextState(current, op, hosts, id).Ok?
    ensures var next := NextState(current, op, hosts, id).value.GetOr(current);
      next.groups == current.groups &&
      Lookup(next.hostAccess, h) == (if h == op.hostId then PolicyOf(op) else Lookup(current.hostAccess, h))
  {}
}
