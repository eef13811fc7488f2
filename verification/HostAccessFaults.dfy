/** Runs of the host-access store with any faults at all, and with any number of policies:
    failed rollbacks, and writes beyond the limit of what is read back. */
module HostAccessFaults {
  import opened Wrappers
  import opened HostAccess
  import opened HostAccessRuns

  /** What holds whatever fails: groups exclude each other, and at most one policy is stored
      beyond those that are read back. */
  ghost predicate Sane(store: Store) {
    var d := store.disk;
    UniqueIds(d.groups) && Exclusive(d.groups) && |d.groups| <= MAX_GROUPS &&
    (forall i :: 0 <= i < |d.groups| ==> d.groups[i].id < store.nextId) &&
    d.hostAccess.Keys <= store.known && store.hosts <= store.known && |d.hostAccess| <= MAX_HOST_ACCESS_POLICIES + 1
  }

  lemma {:induction false} HasLargest(s: set<int>) returns (m: int)
    requires s != {}
    ensures m in s && forall x <- s :: x <= m
    decreases |s|
  {
    HasMember(s);
    m :| m in s;
    var rest := s - {m};
    if rest != {} {
      var r := HasLargest(rest);
      assert forall x <- s :: x == m || x in rest;
      if r > m {
        m := r;
      }
    }
  }

  /** Reading keeps the groups, drops at most one policy, and stays within the limit. */
  lemma ReadBackFits(state: State)
    requires |state.groups| <= MAX_GROUPS && |state.hostAccess| <= MAX_HOST_ACCESS_POLICIES + 1
    ensures ReadBack(state).groups == state.groups && ReadBack(state).hostAccess.Keys <= state.hostAccess.Keys
    ensures |ReadBack(state).hostAccess| <= MAX_HOST_ACCESS_POLICIES
  {
    hide ReadBack;
    if |state.hostAccess| <= MAX_HOST_ACCESS_POLICIES {
      ReadBackSame(state);
    } else {
      var largest := HasLargest(state.hostAccess.Keys);
      LargestIsDropped(state, largest);
      var rest := state.hostAccess - {largest};
      assert state.hostAccess.Keys == rest.Keys + {largest};
    }
  }

  ghost function Read(store: Store): Store {
    store.(disk := ReadBack(store.disk))
  }

  lemma ReadIsWellFormed(store: Store)
    requires Sane(store)
    ensures WellFormed(Read(store))
  {
    hide ReadBack, Exclusive, UniqueIds;
    ReadBackFits(store.disk);
  }

  /** The state a group or policy operation leads to, if it changes anything. */
  ghost function Target(store: Store, op: Op): Option<State>
    requires !op.AddHost? && !op.RemoveHost?
  {
    match NextState(ReadBack(store.disk), op, store.hosts, store.nextId)
    case Ok(next) => next
    case Err(_) => None
  }

  lemma TargetIsGood(store: Store, op: Op)
    requires Sane(store) && !op.AddHost? && !op.RemoveHost? && Target(store, op).Some?
    ensures GoodState(Target(store, op).value, store) && |Target(store, op).value.hostAccess| <= MAX_HOST_ACCESS_POLICIES + 1
  {
    hide Sane, GoodState, WellFormed, ReadBack, NextState;
    ReadIsWellFormed(store);
    NextIsGood(Read(store), op);
    GoodForBoth(store, Target(store, op).value);
    OneMoreAtMost(Read(store), op);
  }

  lemma GoodForBoth(store: Store, state: State)
    requires GoodState(state, Read(store))
    ensures GoodState(state, store)
  {
    hide UniqueIds, Exclusive, ReadBack;
  }

  lemma OneMoreAtMost(store: Store, op: Op)
    requires WellFormed(store) && !op.AddHost? && !op.RemoveHost?
    requires NextState(store.disk, op, store.hosts, store.nextId).Ok? && NextState(store.disk, op, store.hosts, store.nextId).value.Some?
    ensures |NextState(store.disk, op, store.hosts, store.nextId).value.value.hostAccess| <= MAX_HOST_ACCESS_POLICIES + 1
  {
    hide UniqueIds, Exclusive, NormalizeGroup, NormalizeSources, GroupById;
    var before := store.disk.hostAccess;
    if op.SetAccess? || op.ClearAccess? {
      SubsetSize((before - {op.hostId}).Keys, before.Keys);
    }
  }

  lemma StoredIsSane(store: Store, next: State, fault: Fault)
    requires Sane(store) && GoodState(next, store) && |next.hostAccess| <= MAX_HOST_ACCESS_POLICIES + 1
    ensures Sane(ApplyNext(store, next, fault).(nextId := store.nextId + 1))
  {
    hide UniqueIds, Exclusive, ReadBack, GeoOf, BuildHostAcl;
  }

  lemma AddedIsSane(store: Store, h: int, rule: Rule)
    requires Sane(store)
    ensures Sane(HostAdded(store, h, rule))
  {
    hide UniqueIds, Exclusive;
  }

  lemma RemovedIsSane(store: Store, h: int, disk: State)
    requires Sane(store) && disk.groups == store.disk.groups && disk.hostAccess.Keys <= store.disk.hostAccess.Keys
    ensures Sane(HostRemoved(store, h, disk))
  {
    hide UniqueIds, Exclusive;
    SubsetSize(disk.hostAccess.Keys, store.disk.hostAccess.Keys);
  }

  lemma HostsAreSane(store: Store, op: Op, fault: Fault)
    requires Sane(store) && (op.AddHost? || op.RemoveHost?)
    ensures Sane(Step(store, op, fault))
  {
    hide UniqueIds, Exclusive, ReadBack, BuildHostAcl, NextState, HostAdded, HostRemoved;
    ReadBackFits(store.disk);
    var read := ReadBack(store.disk);
    if op.AddHost? {
      AddedIsSane(store, op.hostId, BuildHostAcl(read, op.hostId));
    } else {
      RemovedIsSane(store, op.hostId, if op.hostId in read.hostAccess then WithoutPolicy(read, op.hostId) else store.disk);
    }
  }

  lemma StepStaysSane(store: Store, op: Op, fault: Fault)
    requires Sane(store)
    ensures Sane(Step(store, op, fault))
  {
    hide Sane, ReadBack, NextState, ApplyNext, GoodState;
    if op.AddHost? || op.RemoveHost? {
      HostsAreSane(store, op, fault);
    } else if Target(store, op).Some? {
      TargetIsGood(store, op);
      StoredIsSane(store, Target(store, op).value, fault);
    }
  }

  lemma EmptyIsSane()
    ensures Sane(EMPTY)
  {}

  /** In every run, whatever fails in it, a host is in at most one group. */
  lemma {:induction false} AnyRunIsSane(steps: seq<(Op, Fault)>)
    ensures Sane(Run(steps)) && Exclusive(Run(steps).disk.groups)
  {
    hide Step;
    if steps == [] {
      EmptyIsSane();
    } else {
      var n := |steps| - 1;
      AnyRunIsSane(steps[..n]);
      StepStaysSane(Run(steps[..n]), steps[n].0, steps[n].1);
    }
  }

  /** The last step of a run changed the state, and nothing failed in it. */
  ghost predicate EndsWithWrite(steps: seq<(Op, Fault)>) {
    steps != [] &&
    var (op, fault) := steps[|steps| - 1];
    !op.AddHost? && !op.RemoveHost? && Target(Run(steps[..|steps| - 1]), op).Some? && fault.Works?
  }

  lemma WriteHeals(store: Store, op: Op)
    requires Sane(store) && !op.AddHost? && !op.RemoveHost? && Target(store, op).Some?
    ensures Runs(Step(store, op, Works), Step(store, op, Works).disk)
  {
    hide ReadBack, NextState, Sane, GeoOf, SourcesFor, BuildHostAcl;
    RuntimeRuns(store, Target(store, op).value);
  }

  /** However a run went wrong before, one operation that succeeds sets it right: afterwards
      nginx denies what the shown policies say, as long as no policy is beyond the limit. */
  lemma LastWriteHeals(steps: seq<(Op, Fault)>)
    requires EndsWithWrite(steps) && |Run(steps).disk.hostAccess| <= MAX_HOST_ACCESS_POLICIES
    ensures ShownIsEnforced(Run(steps))
  {
    hide Step, Sane, Runs, Target, ShownIsEnforced, WellFormed, Run;
    var n := |steps| - 1;
    AnyRunIsSane(steps);
    AnyRunIsSane(steps[..n]);
    LastStep(steps);
    WriteHeals(Run(steps[..n]), steps[n].0);
    SaneWithinLimit(Run(steps));
    ConsistentShows(Run(steps));
  }

  lemma LastStep(steps: seq<(Op, Fault)>)
    requires steps != []
    ensures Run(steps) == Step(Run(steps[..|steps| - 1]), steps[|steps| - 1].0, steps[|steps| - 1].1)
  {
    hide Step;
  }

  lemma SaneWithinLimit(store: Store)
    requires Sane(store) && |store.disk.hostAccess| <= MAX_HOST_ACCESS_POLICIES
    ensures WellFormed(store)
  {
    hide UniqueIds, Exclusive;
  }
}
