/** The host-access service: a state file and the configuration compiled from it, changed in
    place by each operation. */
module HostGroups {
  import opened Wrappers
  import opened HostAccess
  import opened HostAccessRuns

  class Service {
    var disk: State
    var geo: Geo
    var acl: map<int, Rule>
    var hosts: set<int>
    ghost var known: set<int>
    var nextId: nat

    ghost function Now(): Store
      reads this
    {
      Store(disk, geo, acl, hosts, known, nextId)
    }

    constructor ()
      ensures Now() == EMPTY
    {
      disk := State([], map[]);
      geo := map[];
      acl := map[];
      hosts := {};
      known := {};
      nextId := 0;
    }

    method WriteRuntimeFiles(state: State)
      requires UniqueIds(state.groups)
      modifies this`geo, this`acl
      ensures Now() == WriteRuntime(old(Now()), state)
    {
      geo := BuildGeoConfig(state);
      GeoOfIsGeo(state);
      SameGeo(geo, state);
      acl := map h | h in hosts :: BuildHostAcl(state, h);
    }

    /** The configuration is written and loaded first and the state file last; whichever fails,
        the configuration is written anew from the state that was current. */
    method ApplyNextState(current: State, next: State, fault: Fault)
      requires UniqueIds(next.groups) && UniqueIds(current.groups) && current == ReadBack(disk)
      modifies this`geo, this`acl, this`disk
      ensures Now() == ApplyNext(old(Now()), next, fault)
    {
      WriteRuntimeFiles(next);
      match fault
      case Works =>
        disk := next;
      case Fails(restored) =>
        if restored {
          WriteRuntimeFiles(current);
        }
    }

    /** Shared end of the operations that may leave the state as it is. */
    method Apply(op: Op, fault: Fault) returns (r: Result<(), Error>)
      requires WellFormed(Now()) && !op.AddHost? && !op.RemoveHost?
      modifies this
      ensures Now() == Step(old(Now()), op, fault)
      ensures r.Ok? <==> (var s := NextState(ReadBack(old(disk)), op, old(hosts), old(nextId)); s.Ok? && (s.value.Some? ==> fault.Works?))
    {
      ReadBackSame(disk);
      var current := ReadBack(disk);
      match NextState(current, op, hosts, nextId)
      case Err(e) =>
        r := Err(e);
      case Ok(None) =>
        r := Ok(());
      case Ok(Some(next)) =>
        NextIsGood(Now(), op);
        ApplyNextState(current, next, fault);
        nextId := nextId + 1;
        r := if fault.Works? then Ok(()) else Err(NotApplied);
    }
  }

  lemma SameGeo(geo: Geo, state: State)
    requires IsGeoOf(geo, state)
    ensures geo == GeoOf(state)
  {
    GeoOfIsGeo(state);
    forall v
      ensures v in geo <==> v in GeoOf(state)
      ensures v in geo ==> geo[v] == GeoOf(state)[v]
    {
      assert Lookup(geo, v) == Lookup(GeoOf(state), v);
    }
  }
}
