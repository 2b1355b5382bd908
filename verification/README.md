# Verified model of open-edr-mdr-agent

A Dafny 4.11 model of the parts of open-edr-mdr-agent whose correctness is hardest to see by reading: the
process graph built from untrusted parent links, the agent's process tracker, the bounded spool, credential
rotation and revocation, the event-log subscriber and ETW collector, the task table, the quoting of Windows
service command lines, and the composite provider. `dafny verify dfyconfig.toml` checks everything.

Code that works in place is a class or a method with loops, proved against a function of the old state; the
properties are then proved of that function, over every input, every run or every interleaving.

| file | part of the system |
|---|---|
| StableSort.dfy | Python's `sorted`, pinned down as the only ordered and stable arrangement |
| ParentWalk.dfy, ProcessGraph.dfy, ProcessChains.dfy | parent walks, the process graph, the two older lineage views |
| GraphMeaning.dfy, TrackerMeaning.dfy, SpoolMeaning.dfy | what the graph, the tracker and the spool say, read off the fields of events and records |
| ProcessIdentity.dfy, TrackerModel.dfy, ProcessTracker.dfy | entity ids, the tracker on values, the tracker as a class |
| TrackerIndexes.dfy, RetainedParents.dfy | when the tracker's indexes stay inverse; parents that exit before their children start |
| Spool.dfy, SpoolAppends.dfy | trimming, append, flush, counters, runs; what an append does to its record and the queue |
| Credentials.dfy, Enrollment.dfy, RotationProtocol.dfy | the credential store and its audit, enrollment tokens, the agent-server rotation protocol |
| EventLogModel.dfy, EventLogLosses.dfy | checkpoints and gaps; which records can be lost |
| Collectors.dfy, CollectorLifecycle.dfy | queues and drains, Start/Stop/run |
| Tasks.dfy | claims, reports, retries |
| WindowsQuoting.dfy | quoting, and a reader after Microsoft's "Parsing C command-line arguments" |
| ProviderMerge.dfy | merging the newest rows of several backends |
| Collections.dfy, Options.dfy | facts about sequences and sets; optional values |

## What the code does not promise

Each of these is a lemma, with the exact condition where there is one.

- The tracker's methods are exported and take events with an entity id already set. Two starts that bring one
  id (`PresetIdsCanBreakTheIndexes`), or an exit that brings an id other than its process's
  (`ExitIdsCanBreakTheIndexes`), break the two indexes; exactly which observations keep them inverse is
  `StepKeepsInverseIff`, and over runs `RunKeepsInverseIff`. No collector in the repository sets an entity id,
  so only a future caller can send such an event (`CollectorsKeepIndexes`). With such ids even the order of a
  snapshot can matter (`SnapshotOrderCanMatter`).
- docs/adr/0001-bounded-local-spool.md says that a record which cannot fit even after lower-value records are
  dropped, that is one that does not fit beside the queued task results, is blocked from entering the spool. In
  the code such a record still enters iff it is a task result that fits by itself (`EntersThoughFullIff`): it
  pushes out older task results and is not blocked (`NewResultReplacesOldResult`). Any other is pushed out last,
  after the telemetry and, for a task result, after all older ones (`SurvivesIff`,
  `OversizeRecordEmptiesTheSpool`), and counts as dropped as well as blocked. A queue within its limits stays as
  it was, for either kind, iff it held task results only or, for a new task result, nothing
  (`FullKeepsQueueIff`). Lost telemetry is not counted as blocked if a task result left in the spool carries the
  same time stamp (`BlockedIsExact`). A flush discards malformed records without counting them
  (`FlushPartitions`); the append functions create none.
- docs/adr/0003-process-entity-identity.md warns that a PID is not an identity. The tracker still resolves a parent
  by PID: a child is linked to the latest holder of its parent's PID (`ParentIsLatestHolder`), so to the wrong
  process once the PID is in use again (`ReusedPidMisleads`). Only an event that brings its parent's create time and
  image or hash is linked to exactly that process (`NamedParentIsKept`).
- Other than by revocation, and as long as its state file is intact, an agent is locked out for good iff on the way
  an activating heartbeat reply was lost (`LostReplyStrands`), or the agent restarted from a state file older than
  its memory or while such a reply was in flight (`RunStrandsIff`, `StrandedForever`).
- The event-log subscriber can lose records without counting a gap. A record whose checkpoint cannot be written is
  given up (`FailedSaveIsSilent`); it comes back iff the subscriber restarts before its next successful save, under
  any profile, and is offered the record again (`GivenUpReturnsIff`, `RestartBringsGivenUpBack`). A crash between
  save and emission loses the record with no failed save (`CrashAfterSaveIsSilent`). In general a record can still
  be emitted iff its emission is next or the saved checkpoint is below it (`CanBeEmittedIff`). A record without a
  positive id is taken from the queue and moves no counter at all (`OffersAddUp`). The error for a record without a
  key is never raised (`EveryRecordHasAKey`).
- The task-result endpoint takes any status. A report of `queued` lets one task be claimed again without a
  retry (`QueuedReportBreaksTheBound`); leaving `queued` out is exactly what the claim bound needs
  (`BoundHoldsIff`). A cancelled or timed-out task is not final: a late report overwrites its status
  (`ReportOverwritesCancel`, `FinishedMovesIff`).
- An explicit limit of 0 for the composite `query_events` becomes 500 in the composite but stays 0 in the
  backends; negative limits drop rows twice (`QueryIsExactIff`, `ListIsExactIff`).
- A quoted program name is read back as written iff it has no quote mark and no trailing backslash
  (`RoundTripIff`).

## Model

| member | source | states |
|---|---|---|
| StableSort.SortFacts | open_edr_mdr_agent/api/app.py:1014 | sorting yields an ordered permutation |
| StableSort.SortIsStable | open_edr_mdr_agent/api/app.py:1014 | rows of equal key keep their input order |
| StableSort.StableSortIsUnique | open_edr_mdr_agent/api/app.py:1014 | order and stability determine the result, so nothing depends on the algorithm |
| ParentWalk.Walk | open_edr_mdr_agent/api/app.py:520-526 | the guarded loop collects the rows of the guarded walk and terminates on cyclic links |
| ParentWalk.WalkIsIterates | open_edr_mdr_agent/api/app.py:1024-1035 | the i-th id visited is the i-th parent of the start, never repeated, never one seen before |
| ParentWalk.WalkIsExact | open_edr_mdr_agent/api/app.py:1024-1035 | an id is visited iff following parents for ever would reach it before any id seen beforehand |
| ParentWalk.AncestorsAreExact | open_edr_mdr_agent/api/app.py:1024-1035 | from one link above a root, the walk finds exactly the ids above it other than itself, cycles included |
| ProcessGraph.BuildIndex | open_edr_mdr_agent/api/app.py:1016-1019 | each entity is represented by its last start or, without one, its first process event |
| ProcessGraph.IndexIsUnique | open_edr_mdr_agent/api/app.py:1016-1019 | the events determine every representative |
| ProcessGraph.WalkAncestors | open_edr_mdr_agent/api/app.py:1024-1035 | the ancestor loop is the guarded walk from the target's parent with the target seen |
| ProcessGraph.GapReportIsExact | open_edr_mdr_agent/api/app.py:1090-1103 | the report holds exactly the gaps of the given events, each once |
| ProcessGraph.BuildChildTable | open_edr_mdr_agent/api/app.py:1040-1043 | the table gives, for every id, the process events naming it as parent, in time order |
| ProcessGraph.DescendantWalk.VisitDescendants | open_edr_mdr_agent/api/app.py:1047-1054 | the recursion that mutates three closure variables is a pure depth-first search, appends exactly the gaps of what it adds, and terminates on unseen entities |
| ProcessGraph.DescendantWalk.VisitUnseen | open_edr_mdr_agent/api/app.py:1051-1054 | for an unseen child: marked, appended, its gap reported, then searched below, each once |
| ProcessGraph.DescendantsAreExact | open_edr_mdr_agent/api/app.py:1040-1056 | an entity is listed iff it is one or more edges below the root (so the root iff it is on a cycle), once each |
| ProcessGraph.BuildProcessGraph | open_edr_mdr_agent/api/app.py:1012-1087 | no graph iff no process event has the entity; otherwise process, ancestors, descendants, timeline, evidence, gaps and host are as specified |
| ProcessGraph.GraphIsExact | open_edr_mdr_agent/api/app.py:1012-1103 | for all events: exact ancestors, exact distinct descendants, exact distinct gaps, and the timeline's process events are exactly those of the entity and its descendants |
| GraphMeaning.ProcessStandsForEntity | open_edr_mdr_agent/api/app.py:1014-1020 | the process is the entity's latest start by timestamp or, without one, its oldest process event; ties go by the order the events came in |
| GraphMeaning.TimelineIsOldestFirst | open_edr_mdr_agent/api/app.py:1058-1062 | the timeline's timestamps never fall |
| GraphMeaning.TimelineKeepsTies | open_edr_mdr_agent/api/app.py:1058-1062 | its events of one timestamp keep their input order |
| GraphMeaning.TimelineIsExact | open_edr_mdr_agent/api/app.py:1057-1062 | an event is in it iff it is of, or names as parent, the entity or a descendant |
| GraphMeaning.EvidenceIsExact | open_edr_mdr_agent/api/app.py:1063-1074 | the evidence is the events of the timeline with raw evidence, oldest first |
| GraphMeaning.AncestorsAreTheLine | open_edr_mdr_agent/api/app.py:1024-1035 | each ancestor stands for the parent that the one before it names, and is never the entity itself |
| GraphMeaning.AncestorsAreDistinct | open_edr_mdr_agent/api/app.py:1024-1035 | no ancestor comes twice |
| GraphMeaning.AncestorsGoOn | open_edr_mdr_agent/api/app.py:1024-1035 | the line ends only at a parent that is missing, unknown, or already in it |
| GraphMeaning.DescendantsAreTheChildren | open_edr_mdr_agent/api/app.py:1040-1056 | each descendant names the entity or an earlier descendant, no child is left out, and the oldest child of the entity comes first |
| GraphMeaning.GapsAreMissingParents | open_edr_mdr_agent/api/app.py:1090-1103 | the gaps are those of the graph's events that give a reason and name no parent, or one that no process event is of |
| ProcessGraph.WalkChain | open_edr_mdr_agent/api/app.py:486-505 | the endpoint's loop gives the guarded walk from the entity and, without checking for repeats, the same gap report |
| ProcessChains.EntityChain | open_edr_mdr_agent/api/app.py:484-516 | entity mode: chain, first hundred children, gaps, and the PID returned |
| ProcessChains.PidChain | open_edr_mdr_agent/api/app.py:517-527 | PID mode: the guarded walk over parent PIDs, and the first hundred children |
| ProcessChains.LastByIsLast | open_edr_mdr_agent/api/app.py:485 | a dict comprehension keeps, for each key, the last row that has it |
| ProcessChains.ChainIsProcessThenAncestors | open_edr_mdr_agent/api/app.py:484-516 | over one index the chain is the graph's process followed by its ancestors, and is exact |
| ProcessChains.ChainGapsAreDistinct | open_edr_mdr_agent/api/app.py:489-505 | unchecked appends still leave no repeated gap, and the report is exact |
| ProcessChains.TraceProcessChain | open_edr_mdr_agent/adapters/local_json.py:88-105 | the trace is the guarded walk reversed, from the PID's last start or the event id, or empty |
| ProcessChains.TraceStartsAt | open_edr_mdr_agent/adapters/local_json.py:88-95 | the trace starts at the last start with the PID, else at the first with the event id, else nowhere |
| ProcessChains.TraceIsRootFirstPath | open_edr_mdr_agent/adapters/local_json.py:88-105 | it ends at the start event, consecutive events are parent and child by PID, no PID repeats |
| ProcessIdentity.IdentityNamesThePid | agent/internal/collect/process_identity.go:11-42 | an identified event has an id, derived from its own PID unless another was preset |
| ProcessIdentity.IdentityIsSettled | agent/internal/collect/process_identity.go:11-58 | confidence and boot id are known, what was set stays, and every parent PID gets an entity id or a reason |
| ProcessIdentity.IdentityIsIdempotent | agent/internal/collect/process_identity.go:11-42 | identifying twice changes nothing |
| ProcessIdentity.IdentityFills | agent/internal/collect/process_identity.go:11-28 | what identification fills in and what it leaves alone, field by field |
| ProcessIdentity.ParentIsDerivedIff | agent/internal/collect/process_identity.go:29-42 | exactly when a parent's id is derived from the raw fields, and which reason is given otherwise |
| ProcessIdentity.ChildNamesItsParent | agent/internal/collect/process_identity.go:23-38 | a parent's own id is the one its child derives, when the details agree, image and hash up to letter case |
| ProcessIdentity.LowerFoldsCase | agent/internal/collect/process_identity.go:45 | lower-casing works letter by letter |
| TrackerModel.RememberKeepsInverseIff | agent/internal/collect/process_tracker.go:155-165 | remembering keeps the indexes inverse iff the entity id is not active under another PID |
| TrackerModel.ForgetKeepsInverseIff | agent/internal/collect/process_tracker.go:128-133 | an exit keeps them inverse iff its id is that of its PID's active process or, without one, of no active process |
| TrackerIndexes.SnapshotKeepsInverseIff | agent/internal/collect/process_tracker.go:88-93 | a snapshot, with repeated PIDs and ids, keeps them inverse iff no event takes a process's id after that process's own last event |
| TrackerIndexes.SnapshotOrderCanMatter | agent/internal/collect/process_tracker.go:88-93 | with ids that belong elsewhere, one order of a snapshot keeps them inverse and the other does not |
| TrackerIndexes.StepKeepsInverseIff | agent/internal/collect/process_tracker.go:66-137 | which observations keep them inverse, whatever ids the events bring |
| TrackerIndexes.RunKeepsInverseIff | agent/internal/collect/process_tracker.go:66-137 | over any run they are inverse all along iff every observation meets that condition in the state it finds |
| TrackerIndexes.PresetIdsCanBreakTheIndexes | agent/internal/collect/process_tracker.go:99-107 | a run of two starts with one preset id that breaks them |
| TrackerIndexes.ExitIdsCanBreakTheIndexes | agent/internal/collect/process_tracker.go:109-137 | a run of a start and an exit with an unknown preset id that breaks them |
| TrackerModel.RunAgrees | agent/internal/collect/process_tracker.go:66-137 | in every run of snapshots, starts and exits whose events bring no id, or the process's own, the indexes are inverse and hold one record per process |
| TrackerModel.RetainedParentIsNewestUnexpired | agent/internal/collect/process_tracker.go:201-209 | the lookup returns the last of the unexpired exits |
| TrackerModel.GapIffNoParent | agent/internal/collect/process_tracker.go:177-199 | an event is left without a parent iff it needed one and none of the three places has it |
| TrackerModel.ResolutionIgnoresRemembered | agent/internal/collect/process_tracker.go:88-93 | processes remembered earlier in the pass change no later resolution |
| TrackerModel.SnapshotByPidIsLast | agent/internal/collect/process_tracker.go:70-82 | for a repeated PID the last event counts |
| TrackerModel.AfterAllIsOverwrite | agent/internal/collect/process_tracker.go:88-93 | after a snapshot the PID index is the old one overwritten by the snapshot |
| TrackerModel.SnapshotOrderIsIrrelevant | agent/internal/collect/process_tracker.go:66-97 | with distinct PIDs a permuted snapshot gives permuted results, the same PID index and gaps, and the same entity index whenever both orders leave the indexes inverse |
| TrackerModel.PurgedPoolOk | agent/internal/collect/process_tracker.go:211-250 | after a purge: at most `maxExited`, all inside the window, lists nonempty and chronological |
| TrackerMeaning.StartIsActive | agent/internal/collect/process_tracker.go:99-107 | a started process is active under its PID with what its start said |
| TrackerMeaning.ExitReturnsTheStart | agent/internal/collect/process_tracker.go:109-137 | a process that stops with nothing but its PID is reported and retained with the id, create time, image path and hash of its start |
| TrackerMeaning.ExitKeepsItsOwn | agent/internal/collect/process_tracker.go:109-137 | what an exit brings itself is never overwritten |
| TrackerMeaning.UnexpiredIsTail | agent/internal/collect/process_tracker.go:214-219 | of exits in order, exactly those inside the window stay: a tail |
| TrackerMeaning.SnapshotFillsIn | agent/internal/collect/process_tracker.go:72-77 | a snapshot fills in tenant, host and image path where they are missing |
| TrackerMeaning.ResolvedOrReason | agent/internal/collect/process_tracker.go:177-199 | a parent asked for gets an id and no reason, or no id and the given reason, and nothing else changes |
| TrackerMeaning.GapsAreCounted | agent/internal/collect/process_tracker.go:196-198 | the count of gaps is the number of events with a parent PID and no parent id |
| TrackerMeaning.SnapshotReasons | agent/internal/collect/process_tracker.go:84-87 | which reason the first snapshot gives, and which later ones |
| RetainedParents.RecentExitSurvives | agent/internal/collect/process_tracker.go:211-250 | a purge cannot evict an exit while at most `maxExited` exits are as recent |
| RetainedParents.ExitStaysRetained | agent/internal/collect/process_tracker.go:109-137 | over any run inside the window, an exit stays the last of its PID if there was room for it and for the exits to come |
| RetainedParents.LateChildFindsItsParent | agent/internal/collect/process_tracker.go:109-209 | under that condition a child that starts any number of observations after its parent's exit gets that parent's entity id |
| RetainedParents.ParentIsLatestHolder | agent/internal/collect/process_tracker.go:177-209 | a child without its parent's details gets a process's id iff that process is the latest holder of the parent's PID |
| RetainedParents.NamedParentIsKept | agent/internal/collect/process_identity.go:29-40 | a child with its parent's create time and image or hash gets exactly that process's id |
| RetainedParents.ReusedPidMisleads | agent/internal/collect/process_tracker.go:177-209 | after any run that ends with the PID in use again, a late child of its former holder is linked to the new one |
| ProcessTracker.OldestExit | agent/internal/collect/process_tracker.go:228-239 | the scan finds an oldest exit, the first of equals in its list, whatever the map order |
| ProcessTracker.FilterUnexpired | agent/internal/collect/process_tracker.go:214-219 | the filter keeps exactly the unexpired exits, in order |
| ProcessTracker.FindRetained | agent/internal/collect/process_tracker.go:201-209 | the backward scan is the specified lookup |
| ProcessTracker.Tracker.constructor | agent/internal/collect/process_tracker.go:44-64 | defaults of five minutes and 1024 exits; everything empty |
| ProcessTracker.Tracker.RememberActive | agent/internal/collect/process_tracker.go:155-165 | both indexes change as specified |
| ProcessTracker.Tracker.ResolveParent | agent/internal/collect/process_tracker.go:177-199 | snapshot, then active, then retained; the counter and reason move iff the parent is still missing |
| ProcessTracker.Tracker.DropExpired | agent/internal/collect/process_tracker.go:211-227 | exactly the unexpired part of the pool is left, and counted |
| ProcessTracker.Tracker.DropOldest | agent/internal/collect/process_tracker.go:228-249 | only oldest exits go, down to the bound; terminates |
| ProcessTracker.Tracker.PurgeExited | agent/internal/collect/process_tracker.go:211-250 | both loops together |
| ProcessTracker.Tracker.Admit | agent/internal/collect/process_tracker.go:88-93 | resolving and remembering one event, against the tables before it is remembered |
| ProcessTracker.Tracker.Retire | agent/internal/collect/process_tracker.go:128-134 | the process leaves both indexes and joins the end of its PID's exits |
| ProcessTracker.Tracker.IdentifySnapshot | agent/internal/collect/process_tracker.go:70-82 | the first pass identifies every event and tabulates them by PID |
| ProcessTracker.Tracker.AdmitSnapshot | agent/internal/collect/process_tracker.go:70-97 | both passes and the purge, for any gap reason |
| ProcessTracker.Tracker.ResolveSnapshot | agent/internal/collect/process_tracker.go:84-93 | the second pass equals resolving every event against the tables before it |
| ProcessTracker.Tracker.ObserveSnapshot | agent/internal/collect/process_tracker.go:66-97 | results, both indexes, pool, gap counter and reason after a snapshot |
| ProcessTracker.Tracker.ObserveProcessStart | agent/internal/collect/process_tracker.go:99-107 | the same for a start |
| ProcessTracker.Tracker.ObserveProcessExit | agent/internal/collect/process_tracker.go:109-137 | the same for an exit, which borrows missing fields from the active entry |
| Spool.DropCandidateIndex | agent/internal/spool/spool.go:244-251 | the first record that is not a task result, else the first |
| Spool.RecordsSize | agent/internal/spool/spool.go:253-263 | the encoded size of a record list |
| Spool.TrimRecords | agent/internal/spool/spool.go:214-242 | the count loop and the byte loop together are the one-at-a-time eviction; dropped is the length difference; retained iff a survivor carries the stamp |
| Spool.TrimIsLeastStep | agent/internal/spool/spool.go:214-242 | the result is the least step of the eviction order that meets both limits |
| Spool.TrimIsSubsequence | agent/internal/spool/spool.go:214-242 | what is left is a subsequence of the input |
| Spool.TrimKeepsNewest | agent/internal/spool/spool.go:214-251 | survivors of each class are a suffix of it; a dropped task result means no telemetry is left |
| Spool.FlushPartitions | agent/internal/spool/spool.go:86-113 | a flush sends, keeps or (if malformed) silently discards each record, exactly once |
| Spool.FlushKeepsOrder | agent/internal/spool/spool.go:86-113 | what a flush keeps is a subsequence, no larger |
| SpoolMeaning.FlushIsExact | agent/internal/spool/spool.go:86-113 | a flush keeps, in order, exactly the sendable records whose upload did not succeed, and counts those as retried and the others as uploaded and replayed |
| SpoolMeaning.FailedAreExact | agent/internal/spool/spool.go:86-113 | which positions those are, in terms of the server's answers |
| SpoolMeaning.SucceededAreExact | agent/internal/spool/spool.go:86-113 | and which ones succeeded |
| SpoolMeaning.TrimIsIdleIff | agent/internal/spool/spool.go:214-242 | a trim does nothing exactly when both limits are met, in records and in bytes |
| SpoolMeaning.TrimMeetsLimits | agent/internal/spool/spool.go:214-242 | what it leaves always meets both limits |
| SpoolMeaning.EvictionTakes | agent/internal/spool/spool.go:244-251 | an eviction takes the first record that is not a task result, or the first of task results alone |
| Spool.RunConserves | agent/internal/spool/spool.go:74-155 | over every run, appended = queued + uploaded + dropped as multisets, and the counters agree |
| Spool.CountersAddUp | agent/internal/spool/spool.go:74-155 | accepted = queued + dropped + uploaded |
| Spool.RunKeepsOrderAndLimits | agent/internal/spool/spool.go:74-155 | the queue is a subsequence of append order, and both limits hold after every operation |
| SpoolAppends.TelemetryNeverDropsATask | agent/internal/spool/spool.go:214-251 | appending telemetry within the limits leaves all task results |
| SpoolAppends.AppendedIsLastToGo | agent/internal/spool/spool.go:214-251 | the new record survives iff any of its class does |
| SpoolAppends.SurvivesIff | agent/internal/spool/spool.go:123-155 | a new record survives iff it fits beside its rivals (for telemetry all queued task results, for a task result none); if not, what is left is the rivals trimmed |
| SpoolAppends.BlockedIsExact | agent/internal/spool/spool.go:138-147 | blocked rises iff the record does not fit beside its rivals and no rival left by trimming has its time stamp |
| SpoolAppends.BlockedIffItDoesNotFit | agent/internal/spool/spool.go:138-147 | within the limits, with a time stamp of its own: iff it does not fit |
| SpoolAppends.RefusalKeepsQueueIff | agent/internal/spool/spool.go:214-251 | when a record does not survive, the queue stays as it was iff it held only the record's rivals |
| SpoolAppends.EntersThoughFullIff | agent/internal/spool/spool.go:123-155 | a record that does not fit beside all task results is in the spool afterwards iff it is a task result that fits by itself |
| SpoolAppends.FullKeepsQueueIff | agent/internal/spool/spool.go:214-251 | for such a record, of either kind, the queue stays as it was iff it held task results only or, for a task result, nothing |
| SpoolAppends.NewResultReplacesOldResult | agent/internal/spool/spool.go:123-155 | of two task results that do not fit together the new one stays, and none counts as blocked |
| SpoolAppends.OversizeRecordEmptiesTheSpool | agent/internal/spool/spool.go:123-155 | two small telemetry records and one oversize record leave an empty spool |
| Spool.SpoolFile.AppendRecordBounded | agent/internal/spool/spool.go:123-155 | queue and counters after an append; an empty stamp becomes the clock's |
| Spool.SpoolFile.FlushBounded | agent/internal/spool/spool.go:74-121 | queue, counters and time of the last successful upload after a flush |
| Credentials.RevocationIsPermanent | open_edr_mdr_agent/api/store.py:369-437 | once revoked, no later authentication succeeds, after any store operations |
| Credentials.StatusImpliesDate | open_edr_mdr_agent/api/store.py:386-399 | status `revoked` never stands without a revocation date |
| Credentials.AuthenticationIsTokenAndDate | open_edr_mdr_agent/api/store.py:369-384 | in a reachable state only the token and the revocation date decide |
| Credentials.AuditIsExact | open_edr_mdr_agent/api/store.py:349-462 | version = 1 + rotations; rotations run 2, 3, 4, ..., each scheduled before under the same version |
| Credentials.OthersAreUntouched | open_edr_mdr_agent/api/store.py:349-469 | only an agent's own revoke, rotate and activate move its credential |
| Enrollment.UsesAreEnrollments | open_edr_mdr_agent/api/store.py:349-367 | over every run a token's uses are the agents enrolled with it since it was created, and never exceed its bound |
| Enrollment.EnrollsIff | open_edr_mdr_agent/api/store.py:349-367 | exactly when an enrollment succeeds, and what it leaves |
| Enrollment.RevokedEnrollsNoOne | open_edr_mdr_agent/api/store.py:344-356 | a revoked token enrolls no one until it is created anew |
| Enrollment.TokensAreManaged | open_edr_mdr_agent/api/store.py:322-347 | creating and revoking tokens |
| Enrollment.StepsAreLogged | open_edr_mdr_agent/api/store.py:349-469 | what every operation does to the rows and which event it logs |
| Credentials.CredentialStore.EnrollAgent | open_edr_mdr_agent/api/store.py:349-367 | succeeds iff the enrollment token is live and under its bound; then the agent can authenticate at version 1 |
| Credentials.CredentialStore.AuthenticateAgent | open_edr_mdr_agent/api/store.py:369-384 | the row iff token and status allow; logged iff it succeeds |
| Credentials.CredentialStore.RevokeAgentCredential | open_edr_mdr_agent/api/store.py:386-399 | the agent of that tenant is revoked and the event logged |
| Credentials.CredentialStore.RotateAgentCredential | open_edr_mdr_agent/api/store.py:401-422 | refused iff revoked; otherwise the next version is pending and the old token still works |
| Credentials.CredentialStore.ActivatePendingAgentCredential | open_edr_mdr_agent/api/store.py:424-437 | the pending credential becomes current and is returned, or nothing happens |
| Credentials.CredentialStore.UpdateHeartbeatRow | open_edr_mdr_agent/api/store.py:464-469 | status becomes online, even for a revoked agent |
| Credentials.CredentialStore.MarkAgentsOffline | open_edr_mdr_agent/api/store.py:1057-1062 | exactly the listed agents become offline |
| Credentials.CredentialStore.Heartbeat | open_edr_mdr_agent/api/app.py:128-136 | accepted iff authenticated; then the reply carries exactly the pending update, now activated |
| RotationProtocol.RunKeepsInv | open_edr_mdr_agent/api/store.py:369-437 | every possible run keeps agent and server in sync, activating or stranded, and the state file level with memory or outdated |
| RotationProtocol.AcceptedIffInSync | open_edr_mdr_agent/api/store.py:369-375 | the agent's token is accepted iff the two are in sync and it is not revoked; the phases exclude each other |
| RotationProtocol.ServerIsAtMostOneAhead | agent/cmd/open-edr-agent/main.go:313-329 | while saves succeed: 0 or 1 versions ahead, 0 iff equal tokens, 1 iff an activating reply is in flight or lost |
| RotationProtocol.StrandedIff | agent/cmd/open-edr-agent/main.go:313-329 | exactly which steps lock an agent out |
| RotationProtocol.RunStrandsIff | agent/cmd/open-edr-agent/main.go:313-329 | over any possible run, an agent ends up locked out iff one of those steps happened on the way |
| RotationProtocol.LostReplyStrands | agent/cmd/open-edr-agent/main.go:313-329 | a run that locks an agent out: rotation, heartbeat, reply lost |
| RotationProtocol.StrandedForever | agent/cmd/open-edr-agent/main.go:313-329 | a locked-out agent never authenticates again |
| RotationProtocol.DiskFollowsMemory | agent/cmd/open-edr-agent/main.go:319-329 | while saves succeed, the state file equals memory |
| RotationProtocol.RowFollowsStore | open_edr_mdr_agent/api/store.py:369-437 | the protocol's server steps are the store's operations |
| RotationProtocol.AgentState.ApplyHeartbeat | agent/cmd/open-edr-agent/main.go:319-329 | an update is adopted iff it has a token that is not blank and a newer version |
| EventLogModel.EveryRecordHasAKey | agent/internal/collect/eventlog_subscription.go:397-415 | every record has a checkpoint key |
| EventLogModel.ProfileIsFirstMatch | agent/internal/collect/eventlog_subscription.go:397-410 | a record goes by the first profile with its query or its log, else by its query, its log, or "unknown" |
| EventLogModel.OneLogOneKey | agent/internal/collect/eventlog_subscription.go:397-415 | records of one log share a checkpoint, whatever their queries, unless an earlier profile claims one |
| EventLogModel.SavedNeverDecreases | agent/internal/collect/eventlog_subscription.go:356-387 | the saved checkpoints never go back |
| EventLogModel.EmittedAtMostOnce | agent/internal/collect/eventlog_subscription.go:211-242 | over all lifetimes, each profile's ids are emitted in strictly increasing order, so at most once |
| EventLogModel.BooksAreExact | agent/internal/collect/eventlog_subscription.go:199-253 | the gap counter is the number of jumps; drains followed by pending are the emitted events, in order; checkpointed = emitted + given up + in hand |
| EventLogModel.UnseenIffInCountedGap | agent/internal/collect/eventlog_subscription.go:220-233 | an id between two ids seen under its key lies in a counted gap iff it was never seen |
| EventLogModel.ZeroGapsIffContiguous | agent/internal/collect/eventlog_subscription.go:220-233 | zero gaps iff the ids seen are contiguous under every profile |
| EventLogModel.OffersAddUp | agent/internal/collect/eventlog_subscription.go:199-233 | in a lifetime, records offered = dropped + queued + skipped + processed + those without a positive id |
| EventLogLosses.CanBeEmittedIff | agent/internal/collect/eventlog_subscription.go:211-242 | after any run, a record not emitted so far can still be emitted iff its emission is next or the saved checkpoint is below it |
| EventLogLosses.LostForGood | agent/internal/collect/eventlog_subscription.go:211-242 | otherwise no continuation emits it, whatever is offered, saved or restarted |
| EventLogLosses.GivenUpReturnsIff | agent/internal/collect/eventlog_subscription.go:235-240 | within its lifetime, a record whose save failed is never emitted, and can be after a restart iff no save has succeeded since, under any key |
| EventLogLosses.FailedSaveIsSilent | agent/internal/collect/eventlog_subscription.go:235-240 | a run in which a failed save loses a record with no counted gap, and offering it again does not help |
| EventLogLosses.RestartBringsGivenUpBack | agent/internal/collect/eventlog_subscription.go:356-387 | a run in which a restart brings such a record back |
| EventLogLosses.CrashAfterSaveIsSilent | agent/internal/collect/eventlog_subscription.go:235-241 | a run in which a crash after a successful save loses a record with no failed save and no gap |
| EventLogModel.AllEmittedIffNoFailedSave | agent/internal/collect/eventlog_subscription.go:235-241 | between records, everything checkpointed in a lifetime was emitted iff no save failed |
| Collectors.EventLogSubscriber.Enqueue | agent/internal/collect/eventlog_subscription.go:199-209 | queued iff there is room, counted otherwise |
| Collectors.EventLogSubscriber.Observe | agent/internal/collect/eventlog_subscription.go:211-242 | checkpoints, counters and acceptance, as the steps of the model |
| Collectors.EventLogSubscriber.RunOnce | agent/internal/collect/eventlog_subscription.go:297-308 | one turn of the loop is take, save, emit |
| Collectors.EventLogSubscriber.DrainEvents | agent/internal/collect/eventlog_subscription.go:244-253 | the drained events and the rest are the old list |
| Collectors.EtwProcessCollector.Enqueue | agent/internal/collect/etw_process.go:146-156 | queued iff there is room, counted otherwise |
| Collectors.EtwProcessCollector.Observe | agent/internal/collect/etw_process.go:192-204 | the record becomes an event, a stop is an exit and anything else a start of the tracker |
| Collectors.EventSaysTheRecord | agent/internal/collect/etw_process.go:274-307 | every field of the event, read off the record |
| Collectors.DecimalReads | agent/internal/collect/etw_process.go:292-305 | the PID's text is the number in decimal, without leading zeros |
| Collectors.EtwProcessCollector.TakeNext | agent/internal/collect/etw_process.go:265-266 | the oldest queued record is taken and observed; records accepted = taken + queued |
| Collectors.EtwProcessCollector.AppendInHand | agent/internal/collect/etw_process.go:267-269 | its event is appended; drains, pending and the one in hand are the events of the records taken, one each, in queue order, compared in every field that observation leaves alone |
| Collectors.CollectorsKeepIndexes | agent/internal/collect/etw_process.go:192-204 | no interleaving of ETW records with snapshots of processes without ids can break the tracker's indexes |
| Collectors.DecimalIsInjective | agent/internal/collect/etw_process.go:274-306 | different PIDs stay different as text |
| Collectors.EtwProcessCollector.DrainEvents | agent/internal/collect/etw_process.go:206-215 | takes from the front, also between the two halves of a turn, and keeps that order |
| Collectors.DrainInto | agent/internal/collect/telemetry.go:25-32 | each enabled drain takes all it can within the budget left, so never passes a bound of zero |
| Collectors.SnapshotTelemetry | agent/internal/collect/telemetry.go:21-46 | the result is everything collected, cut to the budget; what was drained heads it in order and is never cut off |
| CollectorLifecycle.RunKeepsInv | agent/internal/collect/etw_process.go:104-144 | every interleaving of Start, Stop, run and cancellation keeps one run goroutine, one channel per epoch, and waiters on a channel that will close |
| CollectorLifecycle.RunningIffOneRun | agent/internal/collect/etw_process.go:104-144 | `running` iff exactly one run goroutine lives |
| CollectorLifecycle.ClosedOnceByOwnEpoch | agent/internal/collect/etw_process.go:254-260 | no `done` is closed twice, and each by the goroutine it was made for |
| CollectorLifecycle.BlockedStopIsServed | agent/internal/collect/eventlog_subscription.go:157-197 | a blocked Stop waits on a channel that a live, cancelled goroutine is about to close |
| CollectorLifecycle.StopWaitsForItsRun | agent/internal/collect/etw_process.go:132-144 | a Stop that found the collector running is not over before its channel is closed and the goroutine of that epoch is gone |
| CollectorLifecycle.StartRuns | agent/internal/collect/etw_process.go:104-122 | a Start on a stopped collector makes a new goroutine run, on a channel nobody has closed |
| Tasks.QueuedIdsAreComplete | open_edr_mdr_agent/api/store.py:561-567 | the query lists exactly the agent's queued tasks, oldest first |
| Tasks.ClaimTakesOldest | open_edr_mdr_agent/api/store.py:561-570 | a queued task is left behind only when the bound is used up by older ones |
| Tasks.ClaimsAreExact | open_edr_mdr_agent/api/store.py:561-567 | a claim takes a task iff it waits for the agent and fewer than the bound of older ones do |
| Tasks.StepsSpelledOut | open_edr_mdr_agent/api/store.py:540-624 | what each operation does to the table, field by field |
| Tasks.RunKeepsBound | open_edr_mdr_agent/api/store.py:540-624 | for any agents that never report `queued`, late or twice or on tasks they never claimed: claims + [queued] <= 1 + retries |
| Tasks.BoundHoldsIff | open_edr_mdr_agent/api/store.py:572-584 | with reports limited to a set of statuses, the bound holds on every run iff `queued` is not in the set |
| Tasks.QueuedReportBreaksTheBound | open_edr_mdr_agent/api/store.py:572-584 | a run of create, claim and a report of `queued` that breaks it |
| Tasks.RunKeepsBlocked | open_edr_mdr_agent/api/store.py:550-624 | with agents that report only tasks they claimed, a task blocked at creation is never changed, claimed or retried |
| Tasks.ResultsOnlyGrow | open_edr_mdr_agent/api/store.py:572-584 | between retries, no key of a stored result is changed or removed, by any agent |
| Tasks.FinishedMovesIff | open_edr_mdr_agent/api/store.py:561-624 | a finished task changes status iff it is retried or a report names another status, also after a cancel or timeout |
| Tasks.ReportOverwritesCancel | open_edr_mdr_agent/api/store.py:572-584 | a run of create, cancel and report that ends with a succeeded task |
| Tasks.FinishedStays | open_edr_mdr_agent/api/store.py:561-624 | over any run without such a retry or report it stays as it is in every field |
| Tasks.TaskStore.CreateTask | open_edr_mdr_agent/api/store.py:540-548 | a queued task for an agent of the tenant, or nothing |
| Tasks.TaskStore.CreateBlockedTask | open_edr_mdr_agent/api/store.py:550-559 | a finished, blocked task, or nothing |
| Tasks.TaskStore.ClaimTasks | open_edr_mdr_agent/api/store.py:561-570 | exactly the selected tasks become claimed |
| Tasks.TaskStore.CompleteTask | open_edr_mdr_agent/api/store.py:572-584 | status and merged result, keys already stored winning |
| Tasks.TaskStore.ExpireStaleTasks | open_edr_mdr_agent/api/store.py:592-608 | exactly the overdue claimed tasks time out, and are counted |
| Tasks.TaskStore.CancelTask | open_edr_mdr_agent/api/store.py:610-616 | cancels iff queued or claimed |
| Tasks.TaskStore.RetryTask | open_edr_mdr_agent/api/store.py:618-624 | requeues iff failed, timed out or cancelled, clearing the result |
| WindowsQuoting.QuoteWindowsArg | agent/cmd/open-edr-agent/service_args.go:14-43 | the loop writes the specified quoted form |
| WindowsQuoting.WindowsServiceCommandLine | agent/cmd/open-edr-agent/service_args.go:5-12 | the line is read back as the program and its arguments iff the program name is plain |
| WindowsQuoting.ReadRest | agent/cmd/open-edr-agent/service_args.go:14-43 | reading the quoted rest of an argument gives that rest, in any state of pending backslashes |
| WindowsQuoting.ReadArguments | agent/cmd/open-edr-agent/service_args.go:5-43 | reading quoted arguments gives the arguments |
| WindowsQuoting.PlainNameReadsBack | agent/cmd/open-edr-agent/service_args.go:5-43 | a program name without quote marks is read back with its trailing backslashes doubled |
| WindowsQuoting.RoundTripIff | agent/cmd/open-edr-agent/service_args.go:5-43 | round trip for all arguments iff the program name has no quote mark and no trailing backslash |
| WindowsQuoting.ArgumentsSurvive | agent/cmd/open-edr-agent/service_args.go:5-43 | arguments are never damaged when the program name has no quote mark |
| ProviderMerge.SortConcat | open_edr_mdr_agent/core/provider.py:62-66 | sorting a concatenation is merging the sorted parts, ties included |
| ProviderMerge.CutMerge | open_edr_mdr_agent/core/provider.py:62-66 | the first rows of a merge depend only on the first rows of each part |
| ProviderMerge.CompositeIsExact | open_edr_mdr_agent/core/provider.py:62-98 | cutting each backend first equals sorting everything and cutting once, ties included |
| ProviderMerge.ResultIsNewestFirst | open_edr_mdr_agent/core/provider.py:62-66 | the result is the head of all rows from the newest to the oldest, rows of one time in the order of the backends |
| ProviderMerge.ListIsExactIff | open_edr_mdr_agent/core/provider.py:94-98 | that holds for all backends iff the limit is not negative |
| ProviderMerge.QueryIsExactIff | open_edr_mdr_agent/core/provider.py:81-86 | for `query_events`, iff the limit is absent or at least 1 |
| ProviderMerge.Fanout | open_edr_mdr_agent/adapters/local_json.py:47-49 | the collected rows are each backend's top rows, in backend order |
| ProviderMerge.ListAlerts | open_edr_mdr_agent/core/provider.py:62-66 | the newest alerts of all backends together, for limits from 0 |
| ProviderMerge.QueryEvents | open_edr_mdr_agent/core/provider.py:81-86 | the newest events of all backends together, for a limit that is absent or at least 1 |

## Left out

- Credentials.CredentialStore.UpdateHeartbeatRow: does not keep host, address, operating system, agent version and
  health, which no property here reads.
- RotationProtocol.ServerIsAtMostOneAhead: assumes that state files are saved; without that a restart can put the agent
  several versions behind, and then it is locked out.
- HTTP routing, authentication of administrators, TLS, the UI, deployment and service scripts: no state property.
- SQL text, migrations and PostgreSQL: a store method is one atomic step, also `complete_task`, which uses two
  transactions, so two reports of one task inside each other are not modelled; id generation is an argument.
- Raw evidence, object storage, ClickHouse, cases, hunts, detection rules, the task catalog and its policy: separate from the properties here.
- A damaged agent state file, which would stop the agent at its next start; enrolling again is not part of the rotation protocol.
- File and JSON errors of the spool, its line-length limit, and a crash between the queue write and the counter
  write: an operation completes. A record's encoded size is a field of the record.
- The spool's pressure state, ages and lag: functions of one state; `enforceLimits` has no caller.
- The clock is read once per tracker call and does not go back; the original reads it again for each record.
- Each tracker call is atomic. The original has no lock around the tracker, which the ETW goroutine and the
  snapshot path can share.
- SHA-256 is taken as injective (`processEntityID` keeps 16 of its bytes), lower-casing is that of ASCII, and field text has no NUL.
- Rotation with several heartbeat handlers of one agent in flight at once, and agents sharing a state file; Credentials.dfy does interleave store calls of different requests freely.
- Heartbeat metadata and configuration are not kept.
- Several subscribers on one checkpoint file or several consumers of one queue, and a half-written checkpoint file.
- The event-log subscriber's `lastGap` and `lastError` texts and the event fields built from a record.
- The task table's order stands for `created_at`; two tasks created in the same instant have an order here.
- Python's recursion limit, which a parent chain of about a thousand entities would reach in `visit_descendants`.
- Filters of `list_events` and of the providers: the matching rows are the input. `trace_process_chain` and `get_alert_by_id` of the composite are one-line folds.
- Platform collectors, ETW and event-log sources, task executors: their output is an argument.
- Characters are Unicode code points; invalid UTF-8 and NUL in a Windows argument are not modelled.
