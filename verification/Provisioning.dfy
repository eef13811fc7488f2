/** The provisioning job queue: jobs are queued, claimed under a lease by a node's worker,
    claimed again when the lease runs out, and completed. */
module Provisioning {
  import opened Wrappers
  import opened Sequences
  import opened Sorting
  import opened Texts

  const LEASE_MS: int := 2 * 60 * 1000
  const MAX_RESULT_MESSAGE: nat := 2000

  datatype Status = Queued | Running | Completed | Failed

  /** The four kinds of job; only the first takes part in the domain check. */
  datatype Input =
    | ProxyHost(domainNames: seq<string>)
    | DomainRoute(domain: string)
    | BlockCreate(ip: string, durationMinutes: int)
    | BlockDelete(blockId: string)

  datatype Kind = ProxyHostCreate | DomainRouteKind | SecurityBlockCreate | SecurityBlockDelete

  type JobId = int

  datatype Job = Job(id: JobId, kind: Kind, nodeId: string, status: Status, createdAt: int, updatedAt: int,
                     startedAt: Option<int>, finishedAt: Option<int>, leaseUntil: Option<int>, attempts: nat,
                     input: Option<Input>, result: Option<string>, error: Option<string>)

  type Jobs = map<JobId, Job>

  datatype Error = InvalidNode | InvalidInput | DomainTaken(conflict: Conflict) | NotFound

  datatype Conflict = Conflict(domain: string, jobId: JobId, nodeId: string)

  // ----- Normalisation -----

  function NormalizeDomain(s: string): string {
    DropFinalDot(Lower(Bounded(s, 253)))
  }

  /** A name is trimmed, in lower case, without a final dot and at most 253 characters long. */
  lemma NormalizedDomainIs(s: string)
    ensures |NormalizeDomain(s)| <= 253
    ensures |Trim(s)| <= 253 ==> NormalizeDomain(s) == DropFinalDot(Lower(Trim(s)))
  {
    assert Trim(s)[..|Trim(s)|] == Trim(s);
  }

  function NormalizeNodeId(value: string): Option<string> {
    var id := Trim(value);
    if IsIdentifier(id) then Some(id) else None
  }

  /** A node id is given, but for white space around it, by a letter or digit and up to 119 more
      letters, digits, dots, underscores, colons and hyphens. */
  lemma NodeIdIff(value: string)
    ensures match NormalizeNodeId(value)
      case Some(id) => id == Trim(value) && IsNodeId(id)
      case None => !IsNodeId(Trim(value))
  {
    var id := Trim(value);
    if IsNodeId(id) {
      assert forall i :: 0 <= i < |id| ==> id[i] in id;
    }
  }

  predicate IsNodeId(id: string) {
    id != "" && |id| <= 120 && id[0] !in {'.', '_', ':', '-'} &&
    forall c <- id :: 'A' <= c <= 'Z' || 'a' <= c <= 'z' || '0' <= c <= '9' || c in {'.', '_', ':', '-'}
  }

  function KindOf(input: Input): Kind {
    match input
    case ProxyHost(_) => ProxyHostCreate
    case DomainRoute(_) => DomainRouteKind
    case BlockCreate(_, _) => SecurityBlockCreate
    case BlockDelete(_) => SecurityBlockDelete
  }

  // ----- What a job may ask for -----

  /** The parts between the dots. */
  function Labels(s: string): (r: seq<string>)
    ensures r != [] && forall l <- r :: '.' !in l
  {
    if s == [] then [[]]
    else
      var rest := Labels(s[1..]);
      if s[0] == '.' then [[]] + rest else [[s[0]] + rest[0]] + rest[1..]
  }

  predicate ValidLabel(l: string) {
    1 <= |l| <= 63 && l[0] != '-' && l[|l| - 1] != '-' &&
    forall i :: 0 <= i < |l| ==> 'a' <= l[i] <= 'z' || '0' <= l[i] <= '9' || l[i] == '-'
  }

  predicate ValidDomain(value: string) {
    var domain := NormalizeDomain(value);
    domain != "" && forall i :: 0 <= i < |Labels(domain)| ==> ValidLabel(Labels(domain)[i])
  }

  /** The input a job stores, normalised; none when it is refused. */
  function StoredInput(input: Input): (r: Option<Input>)
    ensures r.Some? ==> KindOf(r.value) == KindOf(input)
    ensures input.ProxyHost? ==> r == Some(input)
    ensures r.Some? && r.value.BlockCreate? ==> r.value.ip != "" && 1 <= r.value.durationMinutes <= 60 * 24 * 30
  {
    match input
    case ProxyHost(_) => Some(input)
    case DomainRoute(domain) =>
      if ValidDomain(NormalizeDomain(domain)) then Some(DomainRoute(NormalizeDomain(domain))) else None
    case BlockCreate(ip, minutes) =>
      if Bounded(ip, 160) == "" then None
      else Some(BlockCreate(Bounded(ip, 160), Clamp(if minutes == 0 then 60 else minutes, 1, 60 * 24 * 30)))
    case BlockDelete(id) => if Bounded(id, 120) == "" then None else Some(BlockDelete(Bounded(id, 120)))
  }

  /** Names joined with dots. */
  function Joined(labels: seq<string>): string
    requires labels != []
  {
    if |labels| == 1 then labels[0] else labels[0] + "." + Joined(labels[1..])
  }

  lemma {:induction false} LabelsJoin(s: string)
    ensures Joined(Labels(s)) == s
  {
    if s != [] {
      LabelsJoin(s[1..]);
      var rest, all := Labels(s[1..]), Labels(s);
      assert s == [s[0]] + s[1..];
      if s[0] == '.' {
        assert all[1..] == rest;
      } else {
        assert all[1..] == rest[1..];
      }
    }
  }

  lemma {:induction false} JoinedLabels(labels: seq<string>)
    requires labels != [] && forall i :: 0 <= i < |labels| ==> '.' !in labels[i]
    ensures Labels(Joined(labels)) == labels
    decreases |Joined(labels)|
  {
    if labels[0] != "" {
      var shorter := [labels[0][1..]] + labels[1..];
      JoinedLabels(shorter);
      assert shorter[1..] == labels[1..];
      assert Joined(labels) == [labels[0][0]] + Joined(shorter);
      assert labels[0][0] in labels[0];
      assert Labels(Joined(labels)) == [[labels[0][0]] + shorter[0]] + shorter[1..];
      assert [labels[0][0]] + shorter[0] == labels[0];
    } else if |labels| > 1 {
      JoinedLabels(labels[1..]);
      assert Joined(labels)[1..] == Joined(labels[1..]);
    } else {
      assert labels == [[]];
    }
  }

  /** Up to 63 small letters, digits and hyphens, without a hyphen at either end. */
  predicate PlainLabel(l: string) {
    l != "" && |l| < 64 && l[0] != '-' && l[|l| - 1] != '-' && forall c <- l :: c == '-' || '0' <= c <= '9' || 'a' <= c <= 'z'
  }

  lemma ValidDomainIff(value: string)
    ensures ValidDomain(value) <==>
      exists labels: seq<string> :: labels != [] && (forall l <- labels :: PlainLabel(l)) && NormalizeDomain(value) == Joined(labels)
  {
    var domain := NormalizeDomain(value);
    LabelsJoin(domain);
    forall l: string
      ensures ValidLabel(l) <==> PlainLabel(l)
    {
      if PlainLabel(l) {
        assert forall i :: 0 <= i < |l| ==> l[i] in l;
      }
    }
    if ValidDomain(value) {
      assert forall l <- Labels(domain) :: PlainLabel(l);
    }
    if labels: seq<string> :| labels != [] && (forall l <- labels :: PlainLabel(l)) && domain == Joined(labels) {
      assert forall i :: 0 <= i < |labels| ==> labels[i] in labels;
      JoinedLabels(labels);
    }
  }

  /** What is accepted, and as what.  A domain is read once more before it is judged, so what is
      stored need not be a plain name. */
  lemma StoredInputIff(input: Input)
    ensures match input
      case ProxyHost(_) => true
      case BlockCreate(ip, minutes) =>
        (StoredInput(input).Some? <==> exists c :: c in ip && !IsSpace(c)) &&
        (StoredInput(input).Some? ==>
          StoredInput(input).value.ip == Bounded(ip, 160) &&
          StoredInput(input).value.durationMinutes ==
            if 1 <= minutes <= 43_200 then minutes else if minutes == 0 then 60 else if minutes < 0 then 1 else 43_200)
      case BlockDelete(id) =>
        (StoredInput(input).Some? <==> exists c :: c in id && !IsSpace(c)) &&
        (StoredInput(input).Some? ==> StoredInput(input).value.blockId == Bounded(id, 120))
      case DomainRoute(name) =>
        var stored := NormalizeDomain(name);
        (StoredInput(input).Some? <==>
          exists labels: seq<string> :: labels != [] && (forall l <- labels :: PlainLabel(l)) &&
            NormalizeDomain(stored) == Joined(labels)) &&
        (StoredInput(input).Some? ==> StoredInput(input).value.domain == stored)
  {
    hide Bounded, IsSpace, ValidDomain, NormalizeDomain;
    match input
    case ProxyHost(_) =>
    case BlockCreate(ip, _) => BoundedIs(ip, 160);
    case BlockDelete(id) => BoundedIs(id, 120);
    case DomainRoute(name) => ValidDomainIff(NormalizeDomain(name));
  }

  /** So a name with two dots at its end is stored with one. */
  lemma DotIsStored()
    ensures StoredInput(DomainRoute("a..")) == Some(DomainRoute("a."))
  {
    assert NormalizeDomain("a..") == "a." && NormalizeDomain("a.") == "a";
    hide NormalizeDomain, ValidLabel, Labels;
    OneLabel();
  }

  lemma OneLabel()
    ensures Labels("a") == ["a"] && ValidLabel("a")
  {
    JoinedLabels(["a"]);
  }

  // ----- Domains in use -----

  predicate Active(job: Job) {
    job.status.Queued? || job.status.Running?
  }

  /** The usable names among the given ones, normalised. */
  function Wanted(names: seq<string>): set<string> {
    (set i | 0 <= i < |names| :: NormalizeDomain(names[i])) - {""}
  }

  /** The names a job holds while it is queued or running. */
  function DomainsHeld(job: Job): set<string> {
    if job.kind.ProxyHostCreate? && Active(job) && job.input.Some? && job.input.value.ProxyHost?
    then Wanted(job.input.value.domainNames)
    else {}
  }

  ghost predicate Taken(jobs: Jobs, names: seq<string>) {
    exists id :: id in jobs && !(DomainsHeld(jobs[id]) !! Wanted(names))
  }

  /** No two jobs hold the same name. */
  ghost predicate Exclusive(jobs: Jobs) {
    forall a, b :: a in jobs && b in jobs && a != b ==> DomainsHeld(jobs[a]) !! DomainsHeld(jobs[b])
  }

  ghost predicate IsConflict(jobs: Jobs, names: seq<string>, c: Conflict) {
    c.jobId in jobs && c.domain in DomainsHeld(jobs[c.jobId]) * Wanted(names) && c.nodeId == jobs[c.jobId].nodeId
  }

  // ----- Claiming -----

  predicate Eligible(job: Job, nodeId: string, now: int) {
    job.nodeId == nodeId &&
    (job.status.Queued? || (job.status.Running? && (job.leaseUntil.None? || job.leaseUntil.value <= now)))
  }

  /** A listing of the job directory names every job once, in any order. */
  ghost predicate IsListing(listing: seq<JobId>, jobs: Jobs) {
    NoDuplicates(listing) && forall id :: id in listing <==> id in jobs
  }

  function EligibleIn(jobs: Jobs, listing: seq<JobId>, nodeId: string, now: int): (r: seq<JobId>)
    ensures forall id :: id in r <==> id in listing && id in jobs && Eligible(jobs[id], nodeId, now)
  {
    if listing == [] then []
    else
      var id := listing[0];
      var rest := EligibleIn(jobs, listing[1..], nodeId, now);
      if id in jobs && Eligible(jobs[id], nodeId, now) then [id] + rest else rest
  }

  function CreatedAt(jobs: Jobs): JobId -> int {
    (id: JobId) => if id in jobs then jobs[id].createdAt else 0
  }

  /** The job a claim takes: of the eligible ones in the order of the listing, the first after
      sorting by creation time. */
  function Pick(jobs: Jobs, listing: seq<JobId>, nodeId: string, now: int): Option<JobId> {
    var eligible := EligibleIn(jobs, listing, nodeId, now);
    if eligible == [] then None else Some(SortBy(eligible, CreatedAt(jobs))[0])
  }

  function Claimed(job: Job, now: int): Job {
    job.(status := Running, startedAt := Some(job.startedAt.GetOr(now)), updatedAt := now,
         leaseUntil := Some(now + LEASE_MS), attempts := job.attempts + 1)
  }

  function Finished(job: Job, outcome: Outcome, now: int): Job {
    job.(input := None, status := if outcome.success then Completed else Failed, updatedAt := now, finishedAt := Some(now),
         leaseUntil := None, result := if outcome.success then outcome.result else None,
         error := if outcome.success then None
                  else Some(Bounded(if outcome.error == "" then "Provisioning failed" else outcome.error, MAX_RESULT_MESSAGE)))
  }

  /** What a worker reports. */
  datatype Outcome = Outcome(success: bool, result: Option<string>, error: string)

  function NewJob(id: JobId, nodeId: string, input: Input, now: int): Job {
    Job(id, KindOf(input), nodeId, Queued, now, now, None, None, None, 0, Some(input), None, None)
  }

  /** The job is its node's and is queued, or running under a lease that is over or was never noted. */
  predicate Waits(job: Job, nodeId: string, now: int) {
    job.nodeId == nodeId &&
    match job.status
    case Queued => true
    case Running => job.leaseUntil.Some? ==> now >= job.leaseUntil.value
    case _ => false
  }

  /** A claim takes the oldest job of its node that is queued or whose lease has run out, and
      nothing exactly when there is none. */
  lemma PickIsOldest(jobs: Jobs, listing: seq<JobId>, nodeId: string, now: int)
    requires IsListing(listing, jobs)
    ensures var pick := Pick(jobs, listing, nodeId, now);
      if pick.None? then forall id <- jobs :: !Waits(jobs[id], nodeId, now)
      else pick.value in jobs && Waits(jobs[pick.value], nodeId, now) &&
           forall id <- jobs :: Waits(jobs[id], nodeId, now) ==> jobs[pick.value].createdAt <= jobs[id].createdAt
  {
    assert forall id <- jobs :: Waits(jobs[id], nodeId, now) <==> Eligible(jobs[id], nodeId, now);
    var eligible := EligibleIn(jobs, listing, nodeId, now);
    var sorted := SortBy(eligible, CreatedAt(jobs));
    if eligible == [] {
      forall id | id in jobs
        ensures !Eligible(jobs[id], nodeId, now)
      {
        assert id in listing && id !in eligible;
      }
    } else {
      SortIsStable(eligible, CreatedAt(jobs), (a, b) => true);
      SameMembers(eligible, CreatedAt(jobs));
      assert sorted[0] in sorted;
      forall id | id in jobs && Eligible(jobs[id], nodeId, now)
        ensures jobs[sorted[0]].createdAt <= jobs[id].createdAt
      {
        assert id in sorted;
        var k :| 0 <= k < |sorted| && sorted[k] == id;
        assert sorted[0] in eligible;
      }
    }
  }

  // ----- The service -----

  class Queue {
    var jobs: Jobs

    constructor ()
      ensures jobs == map[]
    {
      jobs := map[];
    }

    /** Looks for a queued or running job that holds one of the names. */
    method FindPendingDomainConflict(names: seq<string>, listing: seq<JobId>) returns (r: Option<Conflict>)
      requires IsListing(listing, jobs)
      ensures r.Some? <==> Taken(jobs, names)
      ensures r.Some? ==> IsConflict(jobs, names, r.value)
    {
      var wanted := Wanted(names);
      forall k | 0 <= k < |listing|
        ensures listing[k] in jobs
      {
        var id := listing[k];
        assert id in listing;
      }
      if wanted == {} {
        return None;
      }
      var i := 0;
      while i < |listing|
        invariant 0 <= i <= |listing|
        invariant forall k :: 0 <= k < i ==> DomainsHeld(jobs[listing[k]]) !! wanted
      {
        var job := jobs[listing[i]];
        if job.kind.ProxyHostCreate? && Active(job) && job.input.Some? && job.input.value.ProxyHost? {
          var held := job.input.value.domainNames;
          var d := 0;
          while d < |held|
            invariant 0 <= d <= |held|
            invariant forall k :: 0 <= k < d ==> NormalizeDomain(held[k]) !in wanted
          {
            var domain := NormalizeDomain(held[d]);
            if domain in wanted {
              assert domain in DomainsHeld(job);
              return Some(Conflict(domain, listing[i], job.nodeId));
            }
            d := d + 1;
          }
        }
        i := i + 1;
      }
      r := None;
      assert forall id :: id in jobs ==> id in listing;
    }

    /** Refused when the node id is invalid or an active job holds one of the names. */
    method EnqueueProxyHost(id: JobId, node: string, names: seq<string>, listing: seq<JobId>, now: int)
      returns (r: Result<Job, Error>)
      requires IsListing(listing, jobs) && id !in jobs
      modifies this
      ensures r.Ok? <==> NormalizeNodeId(node).Some? && !Taken(old(jobs), names)
      ensures r.Ok? ==> r.value == NewJob(id, NormalizeNodeId(node).value, ProxyHost(names), now) && jobs == old(jobs)[id := r.value]
      ensures r.Err? ==> jobs == old(jobs) && (r.error.DomainTaken? ==> IsConflict(jobs, names, r.error.conflict))
    {
      var nodeId := NormalizeNodeId(node);
      if nodeId.None? {
        return Err(InvalidNode);
      }
      var conflict := FindPendingDomainConflict(names, listing);
      if conflict.Some? {
        return Err(DomainTaken(conflict.value));
      }
      var job := NewJob(id, nodeId.value, ProxyHost(names), now);
      jobs := jobs[id := job];
      r := Ok(job);
    }

    /** Refused when the node id or the input is invalid. */
    method EnqueueAction(id: JobId, node: string, action: Input, now: int) returns (r: Result<Job, Error>)
      requires id !in jobs && !action.ProxyHost?
      modifies this
      ensures r.Ok? <==> NormalizeNodeId(node).Some? && StoredInput(action).Some?
      ensures r.Ok? ==>
        r.value == NewJob(id, NormalizeNodeId(node).value, StoredInput(action).value, now) && jobs == old(jobs)[id := r.value]
      ensures r.Err? ==> jobs == old(jobs)
    {
      var nodeId := NormalizeNodeId(node);
      if nodeId.None? {
        return Err(InvalidNode);
      }
      var input := StoredInput(action);
      if input.None? {
        return Err(InvalidInput);
      }
      var job := NewJob(id, nodeId.value, input.value, now);
      jobs := jobs[id := job];
      r := Ok(job);
    }

    /** Takes the oldest eligible job of the node under a new lease. */
    method ClaimNext(node: string, listing: seq<JobId>, now: int) returns (r: Result<Option<Job>, Error>)
      requires IsListing(listing, jobs)
      modifies this
      ensures r.Err? <==> NormalizeNodeId(node).None?
      ensures r.Err? || r.value.None? ==> jobs == old(jobs)
      ensures r.Ok? ==>
        var pick := Pick(old(jobs), listing, NormalizeNodeId(node).value, now);
        if pick.None? then r.value.None?
        else pick.value in old(jobs) && r.value == Some(Claimed(old(jobs)[pick.value], now)) &&
             jobs == old(jobs)[pick.value := r.value.value]
    {
      var nodeId := NormalizeNodeId(node);
      if nodeId.None? {
        return Err(InvalidNode);
      }
      PickIsOldest(jobs, listing, nodeId.value, now);
      match Pick(jobs, listing, nodeId.value, now)
      case None =>
        r := Ok(None);
      case Some(id) =>
        var claimed := Claimed(jobs[id], now);
        jobs := jobs[id := claimed];
        r := Ok(Some(claimed));
    }

    /** Settles an active job of the node; a settled one is returned as it is. */
    method Complete(node: string, id: JobId, outcome: Outcome, now: int) returns (r: Result<Job, Error>)
      modifies this
      ensures r.Ok? <==> NormalizeNodeId(node).Some? && id in old(jobs) && old(jobs)[id].nodeId == NormalizeNodeId(node).value
      ensures r.Err? ==> jobs == old(jobs)
      ensures r.Ok? && !Active(old(jobs)[id]) ==> jobs == old(jobs) && r.value == jobs[id]
      ensures r.Ok? && Active(old(jobs)[id]) ==> r.value == Finished(old(jobs)[id], outcome, now) && jobs == old(jobs)[id := r.value]
    {
      var nodeId := NormalizeNodeId(node);
      if nodeId.None? {
        return Err(InvalidNode);
      }
      if id !in jobs {
        return Err(NotFound);
      }
      var job := jobs[id];
      if job.nodeId != nodeId.value {
        return Err(NotFound);
      }
      if !Active(job) {
        return Ok(job);
      }
      var updated := Finished(job, outcome, now);
      jobs := jobs[id := updated];
      r := Ok(updated);
    }
  }
}
