# Verification model of the HYROVI security engine and control plane

HYROVI is an nginx proxy manager with a security engine and a small control plane. This project
models the parts of `backend/internal/` that hold state machines, protocols and algorithms, and
proves what they keep over every input and every run:

- **Threat analysis.** The sliding request window (`RequestWindow`), the bounded memory of events
  already handled (`SeenMemory`), attack sessions (`AttackSessions`), and the autopilot's decision
  (`Autopilot`).
- **Policy.** Endpoint rules (`EndpointRules`) and the layers host, group and global (`HostPolicy`,
  `PolicyLayers`).
- **Responses.** One monitor pass turns a batch of events into blocks, rate limits, challenges and
  strikes. `MonitorPass` says what a pass computes, `ThreatMonitor` is the pass step by step,
  `MonitorProofs` holds the invariants, `MonitorResults`, `MonitorGrace`, `MonitorOrders`,
  `MonitorStacking` and `MonitorDelivery` the results, `MonitorExamples` two concrete passes, and
  `MonitorService` puts the pass together and hands its requests to the challenge store.
  `Escalation` and `EscalationCounts` count strikes. `ConfigCommit` is the two-file commit of blocks
  and rate limits with its faults and crashes. `Challenges` and `ChallengeRuns` are the challenge
  store, `ProofOfWork` its bit test.
- **Host access.** `HostAccess` compiles policies into nginx blocks, `HostGroups` is the service,
  `HostAccessRuns`, `HostAccessFaults`, `HostAccessEffects` and `HostGroupEdits` are about its runs.
- **Control plane.** The provisioning queue (`Provisioning`, `ProvisioningRuns`), trusted devices
  (`DeviceRegistry`, `DeviceReplay`), canonical JSON and the signed text (`CanonicalJson`,
  `CanonicalJsonProofs`, `SigningMessage`), the backward log reader (`Lines`, `LogTail`) and the
  bounded telemetry files (`TelemetryLog`).

Where the source changes state in place the model has a class or a loop, specified by functions on
values; the theorems are about those functions. Clock values, random ids, the success of file
writes and nginx reloads, signatures and hashes are inputs. Each operation that the source runs
inside its mutation queue is one step; only `ConfigCommit` looks inside a step, for crashes.

`dafny verify dfyconfig.toml` verifies everything.

## Where the code is not what it is meant to be

Each of these is a theorem: the exact condition, or a concrete run.

- A missing `lastStrikeAt` is read as the epoch, because `new Date(null)` is valid. So the cooldown
  after a restriction never applies (`Escalation.ResponseCooldownNeverApplies`), and attacks from
  before the restriction are counted. Strikes stay inside their window exactly while no attack
  predates it (`Escalation.StaysInsideIff`). The bound on strikes fails after a first strike exactly
  when more cooldowns fit between it and the end of the window than into a window
  (`Escalation.FirstStrikeDecides`, `Escalation.EscalationReachableIff`), which for any restriction
  of our days some attack times achieve (`Escalation.RestrictionDecides`,
  `Escalation.OldAttacksExceedBound`).
- The comment at `backend/internal/security.js:3162` says that an interrupted commit cannot leave
  nginx enforcing a stale set. `applyBlockConfig` returns early when the file already has the right
  text, so after a crash between the rollback's write and its reload synchronisations leave nginx
  stale until the surviving entries render to another text, because one expired or the bypass was
  switched (`ConfigCommit.StaleUntilTextChanges`, `ConfigCommit.InterruptedRollbackStaysStale`).
  Any other reload of nginx, for rate limits, challenges or hosts, loads the file as well.
- `HYROVI_SEC.md:47` says that a block supersedes a challenge. A challenge started earlier in the
  same pass stays, exactly when one event of an address passes the guards for a challenge and a
  later one those for a block (`MonitorStacking.StackedIff`, `MonitorExamples.StackingHappens`).
- A rate limit over a range is removed as a whole when one address in it is blocked. An address for
  which a rate limit was decided in the same pass can so end up neither limited nor blocked
  (`MonitorDelivery.EveryEventDelivered`, `MonitorDelivery.MissingLimitMeans`,
  `MonitorExamples.RangeIsLost`).
- A challenge decided for an event that no proxy host stands for starts nothing. So more risk leaves
  a weaker response exactly there, where it turns a rate limit into a challenge
  (`Autopilot.MoreRiskWeakerIff`, `Autopilot.MoreRiskWeakerHappens`).
- The older hard-block candidates cannot be reached any more
  (`Autopilot.OlderHardBlocksUnreachable`).
- Reading the host-access state keeps a thousand host policies, writing keeps all. Beyond that
  nginx enforces a policy that is no longer shown (`HostAccessRuns.BeyondLimitIff`).
- A revoked device must come back with a new key, but only the last key is compared. After two
  registrations the first key may return, and old messages are accepted while recent
  (`DeviceReplay.ReplayAfterKeyReturnsIff`). A message ahead of the clock may be replayed after a
  reset under the condition in `DeviceReplay.ReplayAfterResetIff`.
- A challenge may be answered wrongly 25 times, but an answer whose attempt cannot be stored is
  not counted: there are as many wrong answers more as such failed writes
  (`ChallengeRuns.WrongAnswersBounded`).
- A domain is normalised twice when a route job is accepted and stored after once, so a name can be
  stored with a dot at its end (`Provisioning.StoredInputIff`, `Provisioning.DotIsStored`).
- A failed job carries an error text, but an empty one when the reported error is only white space
  (`ProvisioningRuns.JobsTellOutcomes`).
- `readLastLines` asked for 0 lines returns all it scanned, since `slice(-0)` is `slice(0)`; its
  caller never asks for 0 (`LogTail.ReadLastLines`, `LogTail.RequestedLines`).

## Model

| member | source | states |
|---|---|---|
| RequestWindow.WindowCounters.AddToWindow | backend/internal/security.js:471-478 | the counters track the path multisets of one item more |
| RequestWindow.WindowCounters.RemoveFromWindow | backend/internal/security.js:480-491 | the counters track the path multisets without the oldest item; no count of 0 is kept |
| RequestWindow.AnalyseTimeline | backend/internal/security.js:493-509 | each event's context equals the direct count over all events of its address at or before it and at most 60 s older; every item enters the window once, in order, and a prefix of them leaves it, each once |
| RequestWindow.GroupByAddress | backend/internal/security.js:453-461 | every analysed item is grouped under its address, in list order |
| RequestWindow.WindowContexts | backend/internal/security.js:441-510 | for any event list, in any time order, exactly the analysed events get a context, and it is the direct count |
| RequestWindow.EnrichEvents | backend/internal/security.js:441-510 | the same for a batch of events with given base risks |
| SeenMemory.EventMemory.Remember | backend/internal/security.js:1080-1089 | new exactly when the id is not among the last LIMIT accepted ids; set and queue keep the same elements without duplicates |
| SeenMemory.RepeatsAreSpaced | backend/internal/security.js:582-591 | over any call sequence equal accepted ids are more than LIMIT apart; both memories work alike |
| SeenMemory.NoneMissed | backend/internal/security.js:1080-1089 | every id that comes along has been accepted by then |
| SeenMemory.EachEntryHandledOnce | backend/internal/security.js:1719-1734 | over any run of passes each log entry that enters a window is handled exactly once |
| AttackSessions.BuildAttackSessions | backend/internal/security.js:2107-2150 | the sessions partition the events of risk 40 or more: per node and address, timelines in order, neighbours at most 5 minutes apart, sessions more; request counts, signals, hosts and times sum up the timelines |
| AttackSessions.SameKeyIff | backend/internal/security.js:2117-2119 | two events belong to one key exactly when address and node agree, no node being the local one |
| AttackSessions.SuspiciousAre | backend/internal/security.js:2107-2112 | the events of the sessions are those of risk 40 or more, in order and as often |
| AttackSessions.HandleEvent | backend/internal/security.js:2113-2142 | one event keeps that invariant for the events handled so far |
| AttackSessions.MaxRiskIsMax | backend/internal/security.js:2128-2134 | a session's risk is the largest of its events |
| AttackSessions.SessionsAreUnique | backend/internal/security.js:2107-2150 | the rules determine the sessions: any two partitions obeying them agree per key |
| Autopilot.DecisionIsMonotone | backend/internal/security.js:1112-1156 | more risk, repeats, a sharper profile or a response in place never soften the decision or shorten it |
| Autopilot.MoreRiskWeakerIff | backend/internal/security.js:1127-1133 | what comes of the decision gets weaker with more risk exactly off proxy hosts where a rate limit becomes a challenge |
| Autopilot.MoreRiskWeakerHappens | backend/internal/security.js:1127-1133 | two risks for which it does |
| MonitorGrace.SafeForHalfAMinute | backend/internal/security.js:1758-1764 | over a whole pass, whatever fails, an address none of whose events comes 30 seconds or more after its only challenge was created is neither blocked nor relieved of the challenge, unless one of them has a rule set to block or escalates where no challenge is possible |
| MonitorGrace.BlockedEarlierIff | backend/internal/security.js:1758-1980 | with working commits such an address is blocked exactly when one of its events does so at its turn |
| MonitorGrace.BlockedAfterHalfAMinuteIff | backend/internal/security.js:1112-1133 | where the autopilot decides on all its events, a challenged address is newly blocked exactly when it was not blocked before and one of them comes 30 seconds or more after the challenge was created, with a confidence at the challenge threshold |
| MonitorGrace.RepeatsAreOfToday | backend/internal/security.js:1105-1110 | the repetitions the autopilot counts are the blocks of the address started within the last 24 hours |
| Autopilot.DecidesIff | backend/internal/security.js:1112-1133 | each decision is made exactly in its range of confidence, by profile: a running challenge is waited for, an ignored one makes the challenge threshold enough for a block, a rate limit the limit threshold for a challenge |
| Autopilot.EvidenceWeighs | backend/internal/security.js:1112-1126 | how much a challenge, a rate limit, each earlier block and each strong signal add to the confidence, and that nothing lifts it over 100 |
| Autopilot.BlocksNeedConfidence | backend/internal/security.js:1122-1133 | a block needs the profile's block threshold, or an ignored challenge and the challenge threshold |
| Autopilot.OlderHardBlocksUnreachable | backend/internal/security.js:1158-1210 | events without a protection rule are never hard-block candidates, and rate-limit candidates only by a custom rule |
| EndpointRules.CollectRules | backend/internal/security.js:208-221 | the loop gives the usable rules among the first 50 candidates, each prefix once, longest first |
| EndpointRules.NormalizePathPrefix | backend/internal/security.js:198-206 | a prefix that is kept starts with a slash and has no query, double slash or final slash |
| EndpointRules.CleanIsKept | backend/internal/security.js:198-206 | a prefix that has that form already is taken as it is |
| EndpointRules.FirstIsLongest | backend/internal/security.js:1595-1601 | the rule found matches, and no matching rule is longer; none is found exactly when none matches |
| EndpointRules.MatchEndsAtSegment | backend/internal/security.js:1597-1600 | a rule matches exactly the paths that are its prefix or go on after it with a slash |
| EndpointRules.OrderDoesNotMatter | backend/internal/security.js:208-221 | for distinct prefixes within the limit, the order in which rules are given does not change which one applies |
| HostPolicy.CreateHostPolicyContext | backend/internal/security.js:1534-1593 | the loops build exactly the two tables of exact names and of wildcards by suffix length |
| HostPolicy.ExactWins | backend/internal/security.js:1617-1624 | with unique names, a host's exact name resolves to that host |
| HostPolicy.LongestWildcardWins | backend/internal/security.js:1593-1624 | otherwise the longest covering wildcard decides |
| HostPolicy.OthersAreGlobal | backend/internal/security.js:1617-1624 | a name no host covers gets the global policy |
| HostPolicy.NameOrderDoesNotMatter | backend/internal/security.js:1534-1625 | the order of hosts and names does not change what a request resolves to |
| HostPolicy.EnabledIffEnforcing | backend/internal/security.js:1534-1625 | through all layers responses are enabled exactly when global enforcement is on and the mode is protect or strict |
| HostPolicy.NothingLeftToInherit | backend/internal/security.js:99-120 | no resolved protection rule says inherit, whatever host, group and endpoint say |
| HostPolicy.NormalizedRulesResolved | backend/internal/security.js:99-110 | the global rules the normaliser makes never say inherit, as the resolution relies on |
| PolicyLayers.HostOverGroupOverGlobal | backend/internal/security.js:1479-1625 | a request that a name of a host decides gets, for each kind of attack, the action entered for the host, or where that inherits the one of its group, or else the global one; its mode comes from the same layers unless an endpoint rule of the host sets it |
| PolicyLayers.StrictRulesSharpen | backend/internal/security.js:1595-1615 | an endpoint rule changes no number of its host, except that a strict one caps the thresholds at 45 and 90 and lifts the difficulty to 16; no path stands for the root |
| PolicyLayers.NumbersAreEntered | backend/internal/security.js:223-271 | the numbers of a host are those entered for it, moved into their ranges; what is left out comes from the global policy, sharper in strict mode |
| PolicyLayers.RulesAreEntered | backend/internal/security.js:99-110 | the rules are those entered; a missing one inherits, and globally takes the fallback |
| HostPolicy.RequestsGetShownPolicy | backend/internal/security.js:1504-1532 | without an endpoint match a request gets the mode, thresholds and rules shown for the host whose name decides for it, an exact name or the longest covering wildcard |
| HostPolicy.SomeEntryDecides | backend/internal/security.js:1617-1624 | for every host name some name of a host decides, or none covers it |
| HostPolicy.NormalizedLongestRulesFirst | backend/internal/security.js:223-271 | normalised host policies hold their endpoint rules longest first |
| HostPolicy.LongestEndpointRuleApplies | backend/internal/security.js:1595-1615 | the longest matching endpoint rule of the resolved host decides the mode |
| Escalation.EscalationStates.RegisterStrike | backend/internal/security.js:879-922 | the stored state, the count and the escalation are those of the strike rule; other addresses are unchanged |
| Escalation.EscalationStates.Prune | backend/internal/security.js:856-877 | a counter is kept exactly when its rate limit is in force and its window not over, and then with its strikes, up to 1000, its window and its last strike |
| EscalationCounts.StrikesAreAllCounted | backend/internal/security.js:846-922 | over any run in which no pruning finds more than 1000, the strikes are all that were counted since the window began |
| EscalationCounts.StrikesAreCooldownApart | backend/internal/security.js:846-922 | after a restriction, with any prunings between, the strikes are exactly the attacks a cooldown after the strike before, and an attack escalates exactly when it is one of them and they reach the threshold |
| EscalationCounts.NewWindowIff | backend/internal/security.js:886-914 | an attack is counted with the strikes before it exactly while the rate limit is the same and the window not over; otherwise it opens a window and stands alone |
| EscalationCounts.CountedIff | backend/internal/security.js:900-914 | which attacks in a window are strikes, for any stored times |
| Escalation.RunsStayConsistent | backend/internal/security.js:846-922 | over any run, out-of-order events included, counted strikes are a cooldown apart and end in the window |
| Escalation.StrikesFit | backend/internal/security.js:879-922 | strikes are at most 1 + the cooldowns from the first one to the end of the window |
| Escalation.StaysInsideIff | backend/internal/security.js:886-914 | a step keeps the strikes inside their window exactly when it is not an attack that predates it |
| Escalation.RunsAreBounded | backend/internal/security.js:846-922 | without such attacks strikes never exceed 1 + window / cooldown, and escalation is unreachable beyond |
| Escalation.FirstStrikeDecides | backend/internal/security.js:886-914 | after a restriction and a first strike, some further attacks exceed the bound exactly when more cooldowns fit between that strike and the end of the window than into a window |
| Escalation.EscalationReachableIff | backend/internal/security.js:905-922 | a threshold above the bound can then be reached exactly when that many cooldowns fit |
| Escalation.RestrictionDecides | backend/internal/security.js:846-922 | the same before any strike, counted from the first cooldown after the epoch |
| Escalation.ResponseCooldownNeverApplies | backend/internal/security.js:900-905 | after a restriction the next attack counts at once |
| Escalation.OldAttacksExceedBound | backend/internal/security.js:886-914 | a run of three old attacks that exceeds the bound and escalates |
| ConfigCommit.ConfigStore.ApplyConfig | backend/internal/security.js:1230-1257 | for every outcome of its writes and reloads, crashes included, file and nginx end as specified |
| ConfigCommit.ConfigStore.CommitState | backend/internal/security.js:1259-1273 | the same for include and state file together |
| ConfigCommit.ConfigStore.SynchronizeConfig | backend/internal/security.js:1288-1297 | the same for the start-up repair |
| ConfigCommit.IncludeEnforces | backend/internal/security.js:1212-1228 | the include enforces a target exactly when an active entry has it and the bypass is off |
| ConfigCommit.CommitAgrees | backend/internal/security.js:1259-1273 | success means that state file and include agree; failure leaves the state file |
| ConfigCommit.OutcomesMean | backend/internal/security.js:1230-1273 | only an operation that ran into a crash ends as one, and without a failing write or reload none is reported as failed |
| ConfigCommit.FailedReloadUndone | backend/internal/security.js:1230-1257 | after a rejected reload both files are as before exactly when the old text could be written back |
| ConfigCommit.FailedPersistUndone | backend/internal/security.js:1259-1273 | after a failed state write and a working rollback the include is that of the previous entries |
| ConfigCommit.RecoversAfterAnything | backend/internal/security.js:1288-1297 | after a commit that ended in any way a successful synchronisation makes the include that of the surviving state; the rate-limit commit at 1317-1382 has the same shape |
| ConfigCommit.SynchronizedLiveIff | backend/internal/security.js:1239-1240 | nginx runs the synchronised include exactly when its text differed or nginx ran it already |
| ConfigCommit.StaleUntilTextChanges | backend/internal/security.js:1288-1297 | over any successful synchronisations with a clock that does not go back, a stale nginx stays stale exactly until the surviving entries render to another text |
| ConfigCommit.InterruptedRollbackStaysStale | backend/internal/security.js:3162-3169 | a crash in the rollback after which nginx enforces the rejected set through all synchronisations, exactly until one finds another text |
| ThreatMonitor.Monitor.HandleEvent | backend/internal/security.js:1788-1980 | one round of the event loop changes the sets, maps and lists as `MonitorPass.Handle` says |
| ThreatMonitor.Monitor.Run | backend/internal/security.js:1739-1980 | the loop over a batch, from the active responses on |
| ThreatMonitor.Monitor.Commit | backend/internal/security.js:1982-2074 | the reconciliation after the loop, for every combination of faults |
| MonitorProofs.PassKeeps | backend/internal/security.js:1739-1980 | the invariants of the pass: queued and blocked addresses, counters, removals and rate limits stay in step for every batch |
| MonitorProofs.PassJustifies | backend/internal/security.js:1788-1980 | every block added in the loop, and every block kept to fall back to, is justified by an event of the batch at its turn |
| MonitorResults.PassSucceeds | backend/internal/security.js:1982-2066 | no address is blocked twice or inside an active block; no rate limit covers a new block; no strikes remain for it; exactly the earlier challenges of newly blocked addresses are removed |
| MonitorResults.FailedChallengesBecomeBlocks | backend/internal/security.js:2008-2040 | when challenges cannot be created every queued address is blocked exactly once |
| MonitorResults.OnlyEnforcedAnswered | backend/internal/security.js:1788-1980 | every response is for a public, untrusted address and comes from an event whose resolved mode is protect or strict |
| Addresses.PrivateRanges | backend/internal/security.js:1056-1068 | the IPv4 addresses never answered are those of five private, loopback and link-local ranges |
| MonitorResults.BlocksAreJustified | backend/internal/security.js:1788-2036 | whatever fails, every new block, also one in place of a challenge, has an event of the batch that at its turn met the rule, the autopilot threshold, or the risk threshold, active soft limit and strike count of an escalation, and fixes decision and duration |
| MonitorOrders.StartedAsOrdered | backend/internal/security.js:1788-2030 | whatever fails, every challenge and rate limit a pass starts is ordered by an event of the batch, with the minutes and the difficulty of its settings, a decided limit longer with each earlier block up to four times and 30 days |
| MonitorDelivery.EveryEventDelivered | backend/internal/security.js:1788-2066 | after the pass, with working block and rate-limit commits, a block configured or decided for an event at its turn is in force; a challenge on a proxy host is, or the address is blocked; a rate limit is exactly where one survives the blocks of the pass; a challenge off proxy hosts, observe and deny have changed nothing |
| MonitorDelivery.LimitsLeft | backend/internal/security.js:1982-1992 | with distinct ids the rate limits left are exactly those, old and new, that no address blocked in the loop falls under |
| MonitorDelivery.MissingLimitMeans | backend/internal/security.js:1982-1992 | a decided rate limit that is missing has its address blocked, or it was a limit from before and every one over the address lost to a new block in its range |
| MonitorExamples.RangeIsLost | backend/internal/security.js:1982-1992 | a batch of two events after which an address to be limited is neither limited nor blocked |
| MonitorStacking.StackedIff | backend/internal/security.js:1766-1980 | after a faultless pass an address has a new block and a new challenge exactly when one of its events passed, at its turn, the guards for a challenge and a later one those for a block |
| MonitorExamples.StackingHappens | backend/internal/security.js:1766-1980 | a batch of two events on one proxy host whose result is so |
| MonitorStacking.HandleAdds | backend/internal/security.js:1788-1980 | an event gets its address challenged or blocked exactly when it passes the guards of that branch |
| MonitorService.MonitorThreats | backend/internal/security.js:1739-2074 | loop and commits together compute the pass, with the five results of a faultless one |
| MonitorService.CreateChallenges | backend/internal/security.js:2008-2030 | the challenge store takes the requests of a pass exactly when the pass supposes it does, and then has a challenge for each, with the time and difficulty asked for within the bounds of the store |
| ProofOfWork.LeadingZeroBits | backend/internal/security_challenge.js:249-260 | the server's loop counts the leading zero bits |
| ProofOfWork.HasLeadingZeroBits | backend/internal/security_challenge.js:350-358 | the browser's loop accepts exactly the digests with enough of them |
| ProofOfWork.ZeroBitsBoundValue | backend/internal/security_challenge.js:249-260 | at least d zero bits means a big-endian value below 2^(8n-d) |
| Challenges.Service.PurgeExpired | backend/internal/security_challenge.js:131-140 | exactly the expired challenges go, or nothing when the commit fails |
| Challenges.Service.ChallengeIps | backend/internal/security_challenge.js:166-194 | each address gets one challenge, made for the first item that names it, or keeps the one it has; all or none; refused only for an invalid address or beyond the limit |
| Challenges.Service.RemoveChallenge | backend/internal/security_challenge.js:201-210 | the first challenge with the id or address goes, and only that |
| Challenges.Service.Verify | backend/internal/security_challenge.js:262-300 | a wrong answer costs one attempt, a right one ends the challenge; a refused one, or one that cannot be stored, changes nothing |
| Challenges.Service.HeldBackIff | backend/internal/security_challenge.js:76-90 | after every operation nginx holds back exactly the addresses with a challenge, and none under the bypass |
| Challenges.SolvedIff | backend/internal/security_challenge.js:262-300 | an answer is right exactly when it is in range, attempts are left and the digest lies below the bound |
| Challenges.NewChallenge | backend/internal/security_challenge.js:146-164 | no attempts used; difficulty and duration as asked within 10 to 22 bits and 1 to 120 minutes, and within those bounds whatever is asked |
| ChallengeRuns.AttemptsAreWrongAnswers | backend/internal/security_challenge.js:262-300 | over any run with any failed writes the attempts of a challenge are its recorded wrong answers, 25 at most |
| ChallengeRuns.WrongAnswersBounded | backend/internal/security_challenge.js:285-295 | all wrong answers are at most 25 more than the attempts that could not be stored |
| HostAccess.BuildGeoConfig | backend/internal/security_host_groups.js:153-171 | the loops emit exactly one block per group and host policy that is not open |
| HostAccess.CompiledAgrees | backend/internal/security_host_groups.js:175-190 | a host's rule over the emitted blocks loads, and denies an address exactly when the policy shown by `hostAccessView` does |
| HostAccess.Distinct | backend/internal/security_host_groups.js:48-67 | the usable elements, each once |
| HostAccessRuns.ReadBackSame | backend/internal/security_host_groups.js:104-138 | within the limits storing and reading loses nothing |
| HostAccessRuns.StepKeeps | backend/internal/security_host_groups.js:255-265 | a step, failed and rolled back or not, keeps state and running configuration consistent, unless it exceeds the limit |
| HostAccessRuns.ReachedStatesAgree | backend/internal/security_host_groups.js:305-425 | in every state reached with working rollbacks within the limit a host is in at most one group, and nginx denies what the shown policies say |
| HostAccessRuns.BeyondLimitIff | backend/internal/security_host_groups.js:104-117 | beyond a thousand policies shown and enforced agree exactly when the dropped policy and its fallback do |
| HostAccessFaults.AnyRunIsSane | backend/internal/security_host_groups.js:305-425 | in every run, failed rollbacks and excess policies included, a host is in at most one group |
| HostAccessFaults.LastWriteHeals | backend/internal/security_host_groups.js:255-265 | however a run went wrong, after an operation that succeeds nginx denies what the shown policies say, within the limit |
| HostGroups.Service.WriteRuntimeFiles | backend/internal/security_host_groups.js:195-224 | blocks and rules of a state are written for all proxy hosts |
| HostGroups.Service.ApplyNextState | backend/internal/security_host_groups.js:255-265 | the next state is loaded and stored, or the configuration of the current one is written again |
| HostGroups.Service.Apply | backend/internal/security_host_groups.js:305-388 | create, update, delete and the host edits, with their refusals |
| HostAccessEffects.EditTakesEffect | backend/internal/security_host_groups.js:305-337 | the hosts of a created or changed group have that group and no other; all other hosts keep theirs |
| HostGroupEdits.EditAcceptedIff | backend/internal/security_host_groups.js:305-337 | a group is created or changed exactly when there is room or it is there, the group is usable and all its hosts exist |
| HostGroupEdits.AccessAcceptedIff | backend/internal/security_host_groups.js:357-388 | a host policy is set exactly when the host exists and an allow list has a usable source, and rewritten exactly when it changes |
| HostGroupEdits.LeftOutIsKept | backend/internal/security_host_groups.js:69-95 | a changed group has the mode, sources and hosts it was given, and those of before where they were left out |
| HostGroupEdits.NewGroupIs | backend/internal/security_host_groups.js:69-95 | a new group is open and empty where nothing was given; refused only without a name, or as an allow list without a usable source |
| HostGroupEdits.StepKeepsTidy | backend/internal/security_host_groups.js:48-95 | no operation, failed or not, stores a group with a repeated or unusable host or source, or more than 500 or 250 |
| HostAccessEffects.DeleteTakesEffect | backend/internal/security_host_groups.js:339-347 | deleting a group leaves its members without one and changes nothing else |
| HostAccessEffects.RemovalTakesEffect | backend/internal/security_host_groups.js:407-421 | removing a host removes its policy and its rule and changes nothing for others |
| HostAccessEffects.AccessTakesEffect | backend/internal/security_host_groups.js:357-388 | a host's policy is the given one or, cleared, its group's; other hosts are unchanged |
| Provisioning.NodeIdIff | backend/internal/control_plane_provisioning.js:21-26 | which node ids are valid |
| Provisioning.Queue.FindPendingDomainConflict | backend/internal/control_plane_provisioning.js:39-58 | finds a queued or running job holding one of the names exactly when there is one |
| Provisioning.Queue.EnqueueProxyHost | backend/internal/control_plane_provisioning.js:105-140 | queues a job exactly when the node id is valid and no name is taken |
| Provisioning.Queue.EnqueueAction | backend/internal/control_plane_provisioning.js:142-191 | queues a job of another kind with its input normalised, exactly when node id and input are valid |
| Provisioning.StoredInputIff | backend/internal/control_plane_provisioning.js:142-191 | what is accepted and as what: a target or block id that is not blank, 1 minute to 30 days with 60 minutes for none, a domain that read once more is labels of letters, digits and inner hyphens joined by dots |
| Provisioning.DotIsStored | backend/internal/control_plane_provisioning.js:142-150 | a name that is accepted and stored with a dot at its end |
| Provisioning.Queue.ClaimNext | backend/internal/control_plane_provisioning.js:208-232 | takes the picked job under a new lease and changes no other |
| Provisioning.Queue.Complete | backend/internal/control_plane_provisioning.js:234-254 | settles an active job of the node, clears its input, and leaves a settled one alone |
| Provisioning.PickIsOldest | backend/internal/control_plane_provisioning.js:208-221 | a claim takes a job of that node that is queued, or running under a lease that is over, with least creation time, and none exactly when there is none |
| ProvisioningRuns.Perform | backend/internal/control_plane_provisioning.js:105-254 | the operations on the store are the steps of the runs |
| ProvisioningRuns.DomainsStayExclusive | backend/internal/control_plane_provisioning.js:39-58 | under any interleaving no two queued or running jobs share a non-empty normalised name |
| ProvisioningRuns.RunRecords | backend/internal/control_plane_provisioning.js:208-254 | attempts count the claims, the start is the first, the lease runs from the last, neighbours are a lease apart |
| ProvisioningRuns.ClaimsAreLeasesApart | backend/internal/control_plane_provisioning.js:208-232 | claims i and j of a job are at least (j - i) leases apart, whatever the clock does between |
| ProvisioningRuns.AttemptsTakeTime | backend/internal/control_plane_provisioning.js:222-230 | a running job's lease ends at least attempts leases after its start |
| ProvisioningRuns.SettledForGood | backend/internal/control_plane_provisioning.js:234-254 | a completed or failed job is never changed or claimed again, and its input is gone |
| ProvisioningRuns.JobsTellOutcomes | backend/internal/control_plane_provisioning.js:234-254 | in every run a job is settled exactly when some step settled it, and is completed with the result, or failed with an error, as that step reported; the error is empty exactly when the reported one holds only white space |
| DeviceRegistry.Service.RegisterDevice | backend/internal/security_devices.js:162-200 | accepts and stores a device, with its refusals, and drops the counter |
| DeviceRegistry.Service.RevokeDevice | backend/internal/security_devices.js:202-220 | the device stays known as revoked and its counter goes |
| DeviceRegistry.Service.Reset | backend/internal/security_devices.js:222-237 | opens a new epoch of the counter |
| DeviceRegistry.Service.VerifySignedRequest | backend/internal/security_devices.js:239-310 | the outcome and the counter after it, for every request |
| DeviceRegistry.NumberIsRead | backend/internal/security_devices.js:249-255 | reading a printed number gives the number back |
| DeviceRegistry.PutGives | backend/internal/security_devices.js:191-193 | storing a device changes what is found for its id alone |
| DeviceReplay.RegisteredIff | backend/internal/security_devices.js:162-200 | a registration makes its device trusted exactly when id, key and apps are usable and there is room, or the id is revoked and the key not the one it had; otherwise nothing changes |
| DeviceReplay.TrustedStaysAsRegistered | backend/internal/security_devices.js:162-220 | a trusted device stays as it was registered through every operation but its own revocation |
| DeviceReplay.AppsIff | backend/internal/security_devices.js:69-90 | which lists of apps a device may be given, and what is kept of them |
| DeviceReplay.UnsignedIff | backend/internal/security_devices.js:239-250 | a request is let through unsigned exactly when it carries none of the four headers |
| DeviceReplay.AcceptedIff | backend/internal/security_devices.js:239-291 | a request is accepted exactly when a trusted device signed this message for an app it may use, recently, ahead of the counter and after its epoch |
| DeviceReplay.CounterMoves | backend/internal/security_devices.js:222-300 | while a device is trusted its counter changes only by acceptance, upwards, and by resets |
| DeviceReplay.AcceptedInOrder | backend/internal/security_devices.js:286-294 | in one registration accepted sequence numbers increase, or the later request is stamped after a reset between |
| DeviceReplay.NeverAcceptedAgain | backend/internal/security_devices.js:286-294 | with a clock that does not go back, a message not ahead of it is never accepted again, whatever resets follow |
| DeviceReplay.ReplayAfterResetIff | backend/internal/security_devices.js:286-294 | a message ahead of the clock is accepted again after a reset exactly when stamped after it and recent |
| DeviceReplay.NextRegistrationHasOtherKey | backend/internal/security_devices.js:169-175 | the next registration has a key with another fingerprint |
| DeviceReplay.ReplayAfterKeyReturnsIff | backend/internal/security_devices.js:169-175 | when the first key returns, its messages are accepted again exactly while recent |
| CanonicalJsonProofs.RoundTrip | backend/internal/security_device_protocol.js:5-24 | reading the printed text gives back the canonical form of the value |
| CanonicalJsonProofs.Unambiguous | backend/internal/security_device_protocol.js:5-24 | two values print the same text exactly when they are equal up to object key order |
| CanonicalJsonProofs.SurrogatesArePaired | backend/internal/security_device_protocol.js:5-24 | a surrogate pair is printed as it is, half of one is escaped |
| CanonicalJsonProofs.PrintedKeysAre | backend/internal/security_device_protocol.js:15-20 | the printed keys are exactly the defined ones, each once |
| CanonicalJsonProofs.PrintedKeysAscend | backend/internal/security_device_protocol.js:15-15 | of two printed keys the earlier one ends or has the smaller code unit where they part |
| SigningMessage.MessageReads | backend/internal/security_device_protocol.js:26-29 | the signed text, line by line; a missing body is signed as the empty object |
| CanonicalJsonProofs.PlainTextStays | backend/internal/security_device_protocol.js:5-24 | a string without control characters, quotes, backslashes and lone surrogates is printed as it is |
| SigningMessage.MessageFixesParts | backend/internal/security_device_protocol.js:26-29 | two signed texts agree exactly when device, sequence, timestamp and body hash do |
| SigningMessage.MessageIsInjective | backend/internal/security_device_protocol.js:26-29 | with a collision-free hash the text fixes the body up to key order |
| LogTail.ScanBackwards | backend/internal/log-viewer.js:51-76 | the chunks put together are the end of the file, far enough back |
| LogTail.WholeLines | backend/internal/log-viewer.js:78-91 | exactly the lines that begin in the scanned part |
| LogTail.ReadLastLines | backend/internal/log-viewer.js:40-98 | exactly the last lines of the file unless truncated, always a suffix of its lines, and for 0 lines all that begin in the scanned part |
| LogTail.RequestedLines | backend/internal/log-viewer.js:193-193 | callers ask for 1 to 1000 lines |
| TelemetryLog.TelemetryFile.CompactIfNeeded | backend/internal/control_plane_telemetry.js:162-173 | a file beyond its limit is cut to whole lines of its end |
| TelemetryLog.TelemetryFile.AppendRecords | backend/internal/control_plane_telemetry.js:175-181 | the file stays a whole-line suffix of all ever appended, at most the limit plus the batch |
| TelemetryLog.NodeTelemetry.Ingest | backend/internal/control_plane_telemetry.js:188-208 | both files of a node take the accepted events of their kind in order |
| TelemetryLog.AcceptedAre | backend/internal/control_plane_telemetry.js:188-208 | the accepted events keep their order and their repetitions |
| TelemetryLog.CutLeavesLines | backend/internal/control_plane_telemetry.js:139-160 | cutting anywhere and going on after the next newline leaves whole lines |
| TelemetryLog.RunsKeepWholeLines | backend/internal/control_plane_telemetry.js:162-208 | over any sequence of ingests each file is a whole-line suffix of everything appended, at most the limit plus the last batch that was not empty |

## Left out

- File system, nginx process, HTTP routes, database queries, alerts, action log and timers: they succeed or fail as an input says; the text of records, reasons and log lines is not modelled.
- Detection by regular expression: base signals, the risk before the window context and the suspicious-path test are given per event.
- SHA-256, Ed25519, base64, key parsing, UUIDs and nonces: given as functions or as fresh values; a signature holds or not by a parameter.
- Text of generated nginx files: small syntax trees instead; variable names of different owners are taken as distinct.
- Strings: white space and case beyond ASCII; JSON numbers other than integers; decoding of UTF-8; lines are bytes.
- Addresses are values, so two spellings of one IPv6 address are one address; whether an IPv6 address counts as private is part of it.
- Short reads from a file: a read returns what was asked for.
- Malformed state files: every operation starts from what the operations wrote.
- Attack sessions are values addressed by index where the source shares and changes one record; ids of sessions are left out.
- Provisioning.Queue.EnqueueAction: reason and source of a block job are not modelled.
- Provisioning.Queue.Complete: the job record keeps the result as text, and `requestedBy` is not modelled.
- Challenges.Service.ChallengeIps: reason, source, decision and creation time of a challenge are not modelled; a failed commit is taken as undone, as `ConfigCommit` shows for the commit of the same shape.
- HostAccessRuns.ReadBackSame: stored groups are read as they were normalised when written; the source normalises them again.
- HostGroups.Service.Apply: a refusal for a missing proxy host does not name the host; the security mode and rules of a group belong to `HostPolicy`.
- HostAccessRuns.ReachedStatesAgree: runs with a rollback that fails itself, or beyond the limit, are those of `HostAccessFaults`.
- SeenMemory.EachEntryHandledOnce: log entries have distinct identities here; of entries that share one, `NoneMissed` and `RepeatsAreSpaced` say what is accepted.
- Escalation.RunsAreBounded: one direction only; the exact condition is that of `FirstStrikeDecides` and `RestrictionDecides`.
- MonitorResults.PassSucceeds: an address is one the log gave; the recording of removed and started responses is left out.
- The rate-limit twins of the commit functions: the same code over other texts, modelled once.
- Analytics dashboards, event archive files, normalisers of telemetry fields, challenge pages, certificates and the proxy manager's own records: easy counters or plumbing.
