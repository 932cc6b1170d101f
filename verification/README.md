# A verified model of the cluster recorder

Cluster-recorder keeps a history of a Kubernetes cluster: a collector stores what the API server reports, a small agent
on every node posts network samples, and a periodic evaluator opens and closes crash incidents and marks healthy
baselines. Every handler is short; the guarantees only exist when the handlers share one database over a long run. This
project models those handlers and proves what holds over whole runs.

## How it is organised

- `Rows`, `Text`: table rows, selection, `ORDER BY ts` as a stable sort, stable merging, sorted names.
- `Sample`, `Differ`: four-state fields, snapshots, the transition table, the comparison of two snapshots, replay of a log.
- `Schema`, `Store`, `Retention`, `Timelines`: the tables, the meaning of each SQL statement, the `Db` object that runs
  them, retention and size cap, the merged timeline.
- `Convert`, `Collector`: from Kubernetes objects to rows; the `Watcher` object with the collector's handlers.
- `Incidents`: one tick of the evaluator, decision by decision; the `Evaluator` object.
- `Api`: ingest of agent samples and the comparison with the baseline, with the insertion sort in place; the `Server` object.
- `Netlink`, `Cni`, `Drivers`, `Detection`, `Agents`: reads of a node, generic fields, the sticky drivers as objects,
  detection, and the `AgentProcess` object with its bounded buffer.
- `Recorder`: the recorder as one transition system; a run is a sequence of steps along a clock that never runs backwards.
- `IncidentRuns`, `CrashRuns`, `Reopening`, `PruneRuns`, `PodRuns`, `EventRuns`, `SampleLogs`, `ArrivalRuns`, `LogRuns`,
  `ReplayRuns`, `QuietRuns`, `BaselineRuns`, `CniRuns`, `OverlayRuns`, `AgentRuns`, `OverlayLogs`: the theorems over runs.
- `IncidentRows`, `GuardRuns`, `HandlerRows`, `TimelineRuns`, `AgentSamples`: what the tables, the guard, the timeline and the
  agent's samples say, told from what was delivered, read and posted, without the functions that compute it.
- `MissingRuns`, `ForgottenRuns`, `LateRestarts` and `Reopening`: runs on which something that looks true does not hold.

Objects of the source that update their fields are classes; each of their methods is proved equal to a function on
database contents (or on the agent's memory), and the theorems are about those functions. Instants are integer
nanoseconds, and a stored time is the floor to milliseconds. Where Go iterates over a map, the methods pick keys in any
order, and either the result is proved independent of the order or the exact condition for that is proved.

`dafny verify dfyconfig.toml` checks everything.

## What the code does not do

Statements that look true of the source, or that its documentation makes, but that do not hold in general, each with
what does hold. The runs are there for every valid configuration; `MissingRuns.ALoss`, `ForgottenRuns.AnIllness` and
`LateRestarts.ARestart` show that the nodes and pods they ask for exist.

- A closed incident may be followed by another from the same crashes, at the next evaluation 30 seconds later: when its
  pods are deleted inside the incident window (`Reopening.DeletedPodsReopen`), or when the stable window is shorter than
  the incident window (`Reopening.ShortStableWindowReopens`). `IncidentRuns.SomeAftermathReopensExactly` says exactly when:
  some way of going on without a new crash opens another incident if and only if the crashes in the window as it is at
  the next evaluation still pass the thresholds.
- The comment at `internal/incident/incident.go:147-148` says that a snapshot taken while something is missing is not a
  healthy reference. Three kinds of run break it: a loss older than the stable window
  (`MissingRuns.OldLossBecomesBaseline`), a loss whose first reading was not absent but a failed read
  (`MissingRuns.MaskedLossBecomesBaseline`), and a loss that comes after the snapshot that had the field was pruned
  (`MissingRuns.PrunedLossBecomesBaseline`). The exact condition, in every run, is about what a sample is compared with: the
  guard sees a loss if and only if some sample of the stable window reads the field absent while the latest one stored
  before it has it (`QuietRuns.GuardSeesLossExactly`); a tick that nothing else holds back marks a snapshot lacking the
  field if and only if there is no such sample (`QuietRuns.MarksWhileMissingExactly`).
- A prune deletes the latest snapshot of a node and source when it is no baseline and has left the retention period
  (`Retention.PruneSparesLatestExactly`). An older baseline takes its place, if there is one, and the next version is
  compared with that; if there is none, with nothing. So a version equal to the old baseline is not even stored, the log
  does not say that the node returned to it, and replaying the log ends with the version before
  (`ForgottenRuns.ReturnGoesUnrecorded`). In every run, skipping is invisible in the log exactly when at each delivery the
  latest snapshot stored says what the version before said (`LogRuns.SkippingIsInvisible`), and the log replays exactly when
  no change of a delivered version goes unnoticed (`ReplayRuns.LogReplays`).
- In the same way the guard reads an older baseline for a node whose last version, not ready, was pruned: a tick then marks
  its samples (`ForgottenRuns.IllNodeIsMarked`). A tick that marks vouches for readiness all through the stable window
  exactly when what is stored reads, then and at each delivery of the window, as the last version did
  (`QuietRuns.BaselineMeansReadyThroughout`).
- The guard's restart query goes by the time the terminated run ended, so a tick marks snapshots although an update in the
  stable window told of a restart (`LateRestarts.LateRestartIsMissed`). `CrashRuns.CalmTransitionsExactly` says which
  restarts and crashes it does rule out.
- The waiting reason stored for a pod depends on map order when containers wait for two reasons other than
  CrashLoopBackOff, so delivering the same pod again may restart its clock (`Convert.SummaryDeterminedExactly`,
  `PodRuns.RedeliveryKeepsClockExactly`).
- `internal/cni/driver.go:64-66` says that once an overlay has been seen its disappearance is an outage. That holds from
  the first successful read on only if that read showed the overlay; one that shows up later and vanishes is never
  reported (`CniRuns.FirstReadDecides`, `CniRuns.LateOverlayLossIsSilent`).
- A redetection that falls on a failed read sees no interfaces, so a driver recognised by its interfaces alone is
  replaced and its pinned mode is gone; if the overlay is missing by the time the driver is chosen again, the loss reads
  as a mode without overlay (`OverlayRuns.BlindRedetectionLosesPin`, `OverlayRuns.LossThenLooksLikeAMode`).
- `docs/LIMITS.md:24-25` says that a mode is pinned for the agent's lifetime. It is pinned for the driver object's, which
  `OverlayRuns.PinKeptExactly` delimits.
- `docs/ARCHITECTURE.md:79` says in its transition table that anything turning unknown is reported as degraded. In the code
  not_applicable turning unknown is not (`Differ.Classify`).
- Replaying one comparison over a snapshot gives the next one only if both have the same keys and no reading went through
  not_applicable or out of unknown (`Differ.ReplayOneDiff`).

## Model

| member | source | states |
|---|---|---|
| `Sample.Field.Validate` | internal/sample/field.go:41-55 | a field is well formed exactly when it is present with a value, or absent, not_applicable or unknown without one |
| `Sample.FieldsEqualSameKeys` | internal/sample/field.go:114-125 | comparing sizes and then one map's keys decides equality of key sets and of every field |
| `Sample.FieldsEqualIsEquivalence` | internal/sample/field.go:60-70 | equality up to reasons is reflexive, symmetric and transitive on field maps |
| `Sample.Validate` | internal/sample/field.go:92-111 | accepts exactly the well-formed snapshots, in any map order, and any error it answers is one that applies |
| `Sample.RejectedExactlyWhenMalformed` | internal/sample/field.go:92-111 | there is an error to answer exactly when the snapshot is malformed |
| `Differ.Classify` | internal/diff/diff.go:40-59 | for each severity, exactly the pairs of readings that get it |
| `Differ.ClassifyRespectsEqual` | internal/diff/diff.go:40-59 | the table sees fields only up to equality, and equal readings emit nothing |
| `Differ.DiffMembers` | internal/diff/diff.go:65-94 | a record is emitted exactly for the keys of either side whose readings the table reports, a missing key reading as unknown |
| `Differ.DiffSorted` | internal/diff/diff.go:65-94 | the records come sorted by field, no field twice |
| `Differ.Snapshots` | internal/diff/diff.go:65-94 | collecting in map order and sorting gives that comparison, all stamped with the later snapshot's time; no previous snapshot, no records |
| `Differ.DiffRespectsEqual` | internal/diff/diff.go:65-94 | snapshots with equal fields give the same records up to reasons |
| `Differ.ReplayOneDiff` | internal/diff/diff.go:65-94 | applying the records of one comparison to the earlier fields gives the later ones if and only if the keys agree and nothing was suppressed |
| `Differ.SuppressedExactly` | internal/diff/diff.go:40-59 | suppressed transitions are exactly the changes of state through not_applicable or out of unknown |
| `Differ.BetweenAlerts` | internal/diff/diff.go:40-94 | between two alerts on a field lies a recovery, a degraded record or a not_applicable reading |
| `Differ.AlertsAndRecoveriesAlternate` | internal/diff/diff.go:40-94 | where every read succeeds and applies, alerts and recoveries strictly alternate |
| `Schema.CrashLoopsAre` | internal/store/records.go:119-136 | the grouped query lists exactly the pods with a crash row in the window, each with its earliest |
| `Schema.NewestIsLast` | internal/store/snapshots.go:46-53 | the latest row is the greatest by time and then id |
| `EventRuns.EventsAreLastVersions` | internal/store/records.go:26-32 | in every run, pruned and capped or not, the events table has at most one row per event, and each says what the last delivered version of that event said |
| `EventRuns.RecentEventsAreStored` | internal/store/store.go:94-119 | unless the size cap dropped events, every event whose last version is within the events period is stored |
| `Store.Db.PutPodTransitions` | internal/store/records.go:86-94 | appends every transition in order with its own time and a fresh id |
| `Store.Db.UpsertPod` | internal/store/records.go:160-168 | keeps the clock exactly while phase and waiting reason stay the same |
| `Store.Db.PutSnapshot` | internal/store/snapshots.go:14-27 | appends the row under a fresh id and returns the id |
| `Store.Db.MarkBaseline` | internal/store/snapshots.go:67-76 | the two updates together flag the latest row and clear the surplus of its group |
| `Store.Db.PutChanges` | internal/store/snapshots.go:138-148 | appends every change in order with its own time and a fresh id |
| `Store.Db.OpenIncident` | internal/store/snapshots.go:194-201 | appends an open incident under a fresh id |
| `Store.Db.Prune` | internal/store/store.go:94-119 | deletes the rows before each cutoff, sparing baselines and open incidents: exactly those `Retention.PruneLeavesExactly` leaves out |
| `Store.Db.EnforceSizeCap` | internal/store/store.go:135-164 | the draining loop computes the cap, for every size function, and terminates |
| `Store.Db.Timeline` | internal/store/store.go:176-201 | collecting the three query results and sorting them stably gives their merge by time; `Timelines.TimelineMembers` says what it holds |
| `Retention.PruneAbsorbs` | internal/store/store.go:94-119 | a later prune absorbs an earlier one |
| `Retention.PruneLeavesExactly` | internal/store/store.go:94-119 | row by row, from the periods and the clock alone: which events, transitions, changes, snapshots and incidents a prune leaves; a closed incident stays if and only if it closed at or after the cutoff of changes; pods and ids stay |
| `Retention.PruneKeepsOrder` | internal/store/store.go:94-119 | what it leaves of the four tables with rowids keeps its order, without repetition |
| `Retention.PruneSparesLatestExactly` | internal/store/store.go:94-119 | a prune spares the latest snapshot of a node and source if and only if that is a baseline or still within the retention period |
| `Retention.CapSparesLatestExactly` | internal/store/store.go:135-164 | the cap spares it exactly when it is among the rows left |
| `Retention.CapRemovesOldestFirst` | internal/store/store.go:135-164 | the cap removes only raw snapshots and events, each oldest first, events only once no raw snapshot is left; baselines and all other tables are untouched |
| `Retention.CapGoesInRounds` | internal/store/store.go:135-164 | the cap is a sequence of rounds, each taken because the size was still over the limit and each taking exactly the hundred oldest raw snapshots, or all if there are fewer, or else of the events; after the last it fits or nothing droppable is left |
| `Retention.Capped` | internal/store/store.go:135-164 | draining ends within the cap or with nothing droppable left |
| `Timelines.TimelineIsTheStableMerge` | internal/store/store.go:176-201 | the timeline is a permutation of the three results and their only stable merge by time, ties ordered change, event, transition |
| `Timelines.ChangesTell` | internal/store/snapshots.go:151-177 | the change query finds exactly the records of the range, of the node or of all, ordered by time and rowid |
| `Timelines.TransitionsTell` | internal/store/records.go:97-117 | the same of pod transitions |
| `Timelines.EventsTell` | internal/store/records.go:36-70 | the event query finds those of the range, namespace and node, in that order, and of more than its limit, a thousand unless it is positive, exactly the earliest |
| `Timelines.TimelineMembers` | internal/store/store.go:176-201 | the timeline holds each row the three queries find, under its stored time and node, and nothing else |
| `TimelineRuns.TimelineOfRun` | internal/store/store.go:176-201 | in every run it holds exactly the stored changes and transitions of the range and node and the earliest thousand such events |
| `Timelines.PruneInvisibleToTimeline` | internal/store/store.go:94-119 | pruning changes no timeline that starts within both retention periods, event limit and ties included |
| `Convert.LastStatusWins` | internal/informers/convert.go:58-66 | a container name stands for its last entry, init containers first |
| `Convert.ContainerStatuses` | internal/informers/convert.go:58-66 | the two loops build that map |
| `Convert.PodTransitions` | internal/informers/convert.go:78-122 | phase change first, then per container in name order restarts and waiting changes, with their times and details |
| `Convert.TransitionsTell` | internal/informers/convert.go:78-122 | every emitted transition is a change of phase, a new restart or a change of waiting reason between the two versions, with both sides, name, node, time and the detail text: container, reason and exit code of a restart, message of a waiting change |
| `Convert.ChangesAreTold` | internal/informers/convert.go:78-122 | every such change is emitted, with the same details |
| `Convert.NothingEmittedExactly` | internal/informers/convert.go:75-77 | an update emits nothing if and only if nothing of that kind changed; a resync emits nothing |
| `Convert.CrashTransitions` | internal/informers/convert.go:78-122 | a crash transition is emitted exactly when some container enters CrashLoopBackOff, under the pod's key and the given time |
| `Convert.PodStateOf` | internal/informers/convert.go:126-135 | whatever the map order: the exact restart total, and a waiting reason that may be reported |
| `Convert.ReportReachable` | internal/informers/convert.go:126-135 | every reason that may be reported is reported by some map order |
| `Convert.SummaryDeterminedExactly` | internal/informers/convert.go:126-135 | the reported reason is independent of map order if and only if a container is in CrashLoopBackOff or at most one reason occurs |
| `Convert.NodeSnapshot` | internal/informers/convert.go:139-192 | the loops build the node's sample |
| `Convert.NodeFields` | internal/informers/convert.go:139-192 | every node sample has the same keys, each present with a value or absent |
| `Convert.NodeConditionsTell` | internal/informers/convert.go:139-192 | each condition field reads the last condition of its type, absent if there is none or its status is empty |
| `Convert.NodeDetailsTell` | internal/informers/convert.go:139-192 | each other field reads its own attribute of the node: the list of CIDRs before the single one, the first internal address, the taints sorted |
| `Collector.Watcher.OnPod` | internal/informers/collector.go:105-122 | stores the transitions since the previous version, then the state with a reason it may report |
| `HandlerRows.StoredTransitionsTell` | internal/informers/collector.go:105-141 | in every run, each stored transition, column by column, is one that an update told or the deletion of its pod, with its stored time; an added pod tells none; and every one told at a time still within the events period is stored |
| `HandlerRows.EachOnceInOrder` | internal/informers/convert.go:78-122 | an update tells each thing once: the phase, then container by container in name order, a restart before a waiting reason |
| `HandlerRows.PodRowIsLastReport` | internal/informers/collector.go:105-141 | in every run a pod has a row exactly when the last step about it reported it, and every column but the clock is as last reported |
| `Collector.Watcher.OnPodDelete` | internal/informers/collector.go:124-141 | stores a deletion transition and forgets the pod |
| `Collector.Watcher.RecordNode` | internal/informers/collector.go:155-172 | stores nothing for equal fields, else the snapshot and its changes since the latest one |
| `HandlerRows.NodeTells` | internal/informers/collector.go:155-172 | a delivered node adds one api snapshot without a driver and its changes since the latest, or nothing exactly when that has the same keys with equal fields; nothing else changes |
| `Incidents.ShouldOpen` | internal/incident/incident.go:54-63 | enough keys across enough distinct prefixes |
| `Incidents.OpensOnPods` | internal/incident/incident.go:54-63 | counting keys and prefixes counts pods and namespaces |
| `Incidents.OpensOnMonotone` | internal/incident/incident.go:54-63 | fewer crashing pods never open what more would not |
| `Incidents.Evaluator.EvaluateIncidents` | internal/incident/incident.go:65-127 | opens at the earliest crash, or grows and perhaps closes the incident in force, in any map order; `IncidentRows.TickTracks` and `TickOpens` say what is then stored |
| `IncidentRows.TickTracks` | internal/incident/incident.go:94-127 | in every run, a tick with an incident open leaves every other row as it is, and in that row the pods it listed and exactly those that entered CrashLoopBackOff in the window, sorted; it closes it, under the tick's time, exactly when every listed pod is gone or has been healthy by its reports for the stable window |
| `IncidentRows.TickOpens` | internal/incident/incident.go:65-91 | in every run, a tick with none open opens one if and only if enough pods of enough namespaces entered CrashLoopBackOff in the window: under a fresh id, at the first entry, listing exactly those pods |
| `IncidentRows.IncidentsAreAccountedFor` | internal/incident/incident.go:65-127 | in every run, each incident on record lists exactly the pods that entered in the window of any tick from the one that opened it to the last one that tracked it; an open one has been tracked by every tick since, a closed one was closed by that last tick, at its time, all its pods having recovered |
| `Incidents.Evaluator.Recovered` | internal/incident/incident.go:112-126 | true exactly when every listed pod is gone or has been running with nothing waiting for the stable window |
| `Incidents.Evaluator.EvaluateBaselines` | internal/incident/incident.go:132-180 | marks every node's latest snapshots exactly when the whole guard holds; `GuardRuns.QuietExactlyWhenHealthy` says when that is |
| `GuardRuns.QuietExactlyWhenHealthy` | internal/incident/incident.go:132-163 | in every run, the guard holds if and only if there is a snapshot, no pod is in CrashLoopBackOff by its last report, none entered it, no known restart ended a run and no field was lost in the stable window, and every node on record is ready and steady |
| `GuardRuns.PodsCalmExactly` | internal/store/records.go:193-209 | its first part, from the reports alone: no pod, whatever its phase, is in CrashLoopBackOff by its last report since it was last deleted |
| `GuardRuns.MarksExactlyWhenHealthy` | internal/incident/incident.go:132-180 | in every run, a tick makes a latest snapshot the newest baseline if and only if all of that holds |
| `GuardRuns.MarkingMeansHealthy` | internal/incident/incident.go:132-180 | a tick that changes any snapshot finds all of that, in particular no pod in CrashLoopBackOff |
| `GuardRuns.CrashLoopingPodDecides` | internal/incident/incident.go:138-140 | where the rest holds, a tick marks if and only if no pod is in CrashLoopBackOff by its last report |
| `Incidents.Evaluator.Tick` | internal/incident/incident.go:45-50 | incidents first, then baselines, on the result |
| `IncidentRuns.GrownIsUnion` | internal/incident/incident.go:94-111 | a grown list is the sorted union of listed and crashing pods |
| `IncidentRuns.AtMostOneOpenIncident` | internal/incident/incident.go:65-127 | in every run at most one incident is open, none opened in the future, every list sorted without duplicates |
| `IncidentRuns.IncidentsOnlyGrow` | internal/store/store.go:94-119 | in every step an incident keeps its opening, loses no pod and stays closed once closed, unless the step is a prune and the incident closed before its cutoff of changes; then, and only then, it is deleted |
| `IncidentRuns.ClosingLeavesNoKnownCrasher` | internal/incident/incident.go:94-126 | in every run: when an incident closes, every pod with a crash in the window of a later evaluation has been deleted, if the stable window reaches back to that window (for ticks 30 seconds apart, if it is not shorter) |
| `IncidentRuns.ReopensExactly` | internal/incident/incident.go:65-127 | after closing, the next evaluation, at any later instant, opens again if and only if the crashes in the window as it then is pass the thresholds |
| `IncidentRuns.SomeAftermathReopensExactly` | internal/incident/incident.go:65-127 | some continuation without a new crash, over any steps and ticks, opens another incident if and only if the crashes in the window at the next evaluation pass the thresholds |
| `IncidentRuns.ClosedStaysClosed` | internal/incident/incident.go:94-126 | if none of those pods was deleted, no continuation without a new crash ever opens another incident |
| `CrashRuns.TransitionsAreEmitted` | internal/store/records.go:86-94 | in every run, however often pruned, the stored transitions of any class were emitted at their times, and every one emitted within the events period is stored |
| `CrashRuns.CrashesAreEntries` | internal/store/records.go:119-136 | in every run the stored crashes are delivered entries into CrashLoopBackOff, and every entry within the events period is stored |
| `CrashRuns.QueryTellsEntries` | internal/store/records.go:119-136 | the crash query lists exactly the pods that entered CrashLoopBackOff in its window, each with its first entry |
| `CrashRuns.OpensExactly` | internal/incident/incident.go:65-91 | with no incident open, a tick opens one if and only if the pods that entered CrashLoopBackOff within the window pass both thresholds, and lists exactly those |
| `CrashRuns.OpensAtFirstEntry` | internal/incident/incident.go:78-85 | an incident starts at the first of those entries |
| `CrashRuns.RestartsAreDelivered` | internal/informers/convert.go:85-105 | in every run the stored restarts are delivered restarts, each under the time its terminated run ended or, if unknown, the time of delivery, and every such time within the events period is stored |
| `CrashRuns.RestartQueryTells` | internal/store/records.go:138-145 | the restart query is empty if and only if no delivered restart of any pod terminated a run that ended in its window |
| `CrashRuns.CalmTransitionsExactly` | internal/incident/incident.go:138-143 | the guard finds no crash and no restart if and only if no pod entered CrashLoopBackOff in the window and no delivered restart terminated a run that ended in it |
| `CrashRuns.BaselineMeansNoCrash` | internal/incident/incident.go:138-143 | so a tick that marks baselines rules out both, for the stable window |
| `LateRestarts.LateRestartIsMissed` | internal/incident/incident.go:138-143 | a run on which an update in the stable window tells of a restart whose run ended before it, and the tick marks a snapshot |
| `Reopening.RecoveredPodsClose` | internal/incident/incident.go:112-126 | for every configuration and any pods that pass its thresholds: they crash and recover, and their incident closes when they have been healthy for the stable window |
| `Reopening.LongStableWindowKeepsClosed` | internal/incident/incident.go:112-126 | with a stable window at least as long as the incident window, that run leaves no crash in the window of the next evaluation |
| `Reopening.DeletedPodsReopen` | internal/incident/incident.go:118-120 | for every configuration, a run on which pods crash, are deleted, their incident closes at one tick and another opens at the next from the same crashes |
| `Reopening.ShortStableWindowReopens` | internal/incident/incident.go:112-126 | whenever the stable window is shorter, a run on which the incident of pods that are all known closes, and the next tick opens another |
| `PruneRuns.MaintenanceInvisible` | internal/store/store.go:94-119 | however prunes and caps are interleaved, every evaluation decides what it would have decided with nothing ever deleted, if events are kept for the incident window |
| `PodRuns.ClockShowsStretch` | internal/store/records.go:158-191 | in every run a pod is known exactly when reported since its last deletion, and its clock shows the first report of the last stretch in one state |
| `PodRuns.ClosingPodsWereHealthy` | internal/incident/incident.go:112-126 | every known pod of a closing incident was healthy by the report in force when the stable window began and by every report since |
| `PodRuns.RedeliveryKeepsClockExactly` | internal/store/records.go:158-168 | delivering the same pod again later keeps its clock, whatever the map order, if and only if its reason is determined |
| `SampleLogs.StoredOwn` | internal/store/snapshots.go:138-148 | a sample stored with its changes adds itself to the samples of its node and source and those changes to their log |
| `SampleLogs.BetweenTells` | internal/api/server.go:300-318 | the records between two agent samples: the two readings of a key where the table gives them a severity, and one with both names if and only if the driver changed |
| `SampleLogs.BetweenOnce` | internal/api/server.go:300-318 | each of them once, the fields by name and the driver last |
| `ArrivalRuns.StepExtends` | internal/informers/collector.go:155-172 | every step but maintenance adds to one node and source the sample it records, with its comparison, and leaves every other alone |
| `ArrivalRuns.ApiSnapshotsAreOwn` | internal/api/server.go:281-318 | in every run, every stored api snapshot is one the collector took: a post never stores one |
| `ArrivalRuns.LogIsWritten` | internal/store/store.go:94-119 | in every run, whatever is deleted: as far back as changes are kept, the log of a node and source is, entry for entry and in order, each arrival compared with the latest snapshot stored when it came |
| `LogRuns.LatestIsLastExactly` | internal/store/snapshots.go:46-53 | in every run, all along it, the latest stored sample of a node and source is the last one recorded if and only if maintenance spares it and posts come in time order |
| `LogRuns.SparesExactly` | internal/store/store.go:94-164 | what can be checked before a prune or cap runs decides whether it spares the latest snapshot |
| `LogRuns.SparingKeepsLatest` | internal/store/store.go:94-164 | a run in which that held before every prune and cap spares the latest sample throughout |
| `LogRuns.AgreesExactly` | internal/informers/collector.go:155-172 | in every run, all along it, the log as far back as changes are kept is the comparison of consecutive arrivals if and only if each is compared with the latest sample stored as with the arrival before it |
| `LogRuns.RetainedLog` | internal/store/store.go:94-119 | so it is in every run that spares the latest sample, with posts in time order; and the whole log is, if no change is deleted |
| `LogRuns.SamplesOfRun` | internal/api/server.go:281-318 | if no snapshot is deleted, the stored samples are the delivered versions without repetitions, or the accepted posts |
| `LogRuns.SkippingIsInvisible` | internal/informers/collector.go:155-172 | in every run, all along it, a node's change log as far back as changes are kept is the one from storing and comparing every delivered version if and only if at each delivery the latest snapshot stored says what the version before said; sparing it is enough |
| `ReplayRuns.LogReplays` | internal/informers/collector.go:155-172 | in every run, all along it, the log as far back as changes are kept leads from the version in force when that period began to the last one if and only if every change of a delivered version shows against what it was compared with; if the latest snapshot is spared, to the fields of that |
| `ReplayRuns.ReplayOneExactly` | internal/diff/diff.go:65-94 | applying a comparison with one snapshot to the fields of another gives the later fields exactly when no change goes unnoticed |
| `ForgottenRuns.ReturnGoesUnrecorded` | internal/informers/collector.go:155-172 | a run on which a version delivered after a prune is not stored, and the log neither agrees nor replays |
| `LogRuns.RedeliveryIsInvisible` | internal/api/server.go:281-318 | in every run, all along it, an agent's change log as far back as changes are kept is the pairwise comparison, driver changes included, of the accepted posts with repetitions collapsed, if and only if each is compared with the latest sample stored as with the post before it; sparing that is enough |
| `LogRuns.LatestIsLastPost` | internal/store/snapshots.go:46-53 | in every run, all along it, the latest stored agent sample is the last accepted post if and only if maintenance spares it and posts come in time order |
| `QuietRuns.LogTells` | internal/store/store.go:94-119 | in every run, a recent enough entry is in the log if and only if some arrival of that time differed in it from the latest sample stored when it came |
| `QuietRuns.CalmExactlyWhenNothingLost` | internal/store/snapshots.go:246-250 | in every run, the alert query finds nothing in a retained window if and only if no sample of it lacked a field that the latest one stored before it had |
| `QuietRuns.BaselineMeansReadyThroughout` | internal/incident/incident.go:132-180 | if a tick marks baselines, in any run, every version of a node in force in the stable window was ready if and only if what is stored read as the last version, at the tick and at each delivery of the window; sparing the latest snapshot is enough |
| `QuietRuns.GuardReadsReadyExactly` | internal/incident/incident.go:132-145 | the same of a node the guard finds ready |
| `ForgottenRuns.IllNodeIsMarked` | internal/incident/incident.go:132-145 | a run on which a tick marks a node's sample although its last delivered version is not ready |
| `QuietRuns.BaselineMeansNothingLost` | internal/incident/incident.go:132-180 | if a tick marks baselines, in any run, no sample of the stable window lacked a field that the latest one stored before it had |
| `QuietRuns.LossIsBetweenArrivals` | internal/incident/incident.go:147-151 | where maintenance spares the latest sample and posts come in time order, that is a field gone from present to absent between consecutive arrivals |
| `QuietRuns.GuardSeesLossExactly` | internal/incident/incident.go:147-151 | in every run, the alert query finds a loss of a field if and only if some sample of the window lacks it while the latest one stored before it has it |
| `QuietRuns.MarksExactlyWhenNothingLost` | internal/incident/incident.go:132-180 | in every run, an otherwise quiet tick marks a latest snapshot, whatever it lacks, if and only if nothing was lost in the stable window |
| `QuietRuns.MarksWhileMissingExactly` | internal/incident/incident.go:132-180 | in every run, a tick that nothing else holds back marks a snapshot lacking a field if and only if no sample of the stable window lacked it while the latest one stored before it had it |
| `MissingRuns.OldLossBecomesBaseline` | internal/incident/incident.go:147-151 | for every configuration, a run that meets those conditions on which a snapshot lacking a field becomes a baseline because the alert has left the stable window |
| `MissingRuns.MaskedLossBecomesBaseline` | internal/incident/incident.go:147-151 | another, within one stable window, on which the field is present, unreadable and then absent |
| `MissingRuns.PrunedLossBecomesBaseline` | internal/incident/incident.go:147-151 | another, on which the snapshot that had the field was pruned before the one without it came |
| `BaselineRuns.MarkKeepsNewest` | internal/store/snapshots.go:67-76 | a mark keeps exactly the newest `keep` of the old baselines and the latest snapshot |
| `BaselineRuns.MarkNodesOfGroup` | internal/incident/incident.go:164-178 | marking node after node works on each group once, as if it were the whole table |
| `BaselineRuns.TickMarksLatest` | internal/incident/incident.go:164-178 | in every run a quiet tick makes each latest snapshot the newest baseline of its group, any other tick changes no baseline |
| `BaselineRuns.BaselinesAreNewestMarked` | internal/store/snapshots.go:67-76 | through every put, mark, prune and cap the baselines of a group are the newest four of all ever marked |
| `BaselineRuns.BaselineNeverLost` | internal/store/store.go:94-164 | once a group has a baseline it always has one at least as new |
| `Api.Server.AgentSnapshot` | internal/api/server.go:281-318 | a malformed sample is refused and changes nothing, any other is normalised and stored with its changes |
| `HandlerRows.PostTells` | internal/api/server.go:281-318 | a post with a node, a time, its own or else the clock's, and some fields, all well shaped, adds one unflagged agent snapshot with what differs from the latest of its node; any other changes nothing |
| `Api.ChangesSince` | internal/api/server.go:305-310 | the comparison plus one record for a changed driver |
| `Api.SortFields` | internal/api/server.go:242-248 | the insertion sort in place orders the rows by name and is a permutation |
| `Api.CompareFields` | internal/api/server.go:210-232 | collected in map order and sorted, the rows are one per key of either side, in key order |
| `Api.Server.DiffSource` | internal/api/server.go:183-240 | answers nothing without a snapshot, else the latest one against the newest baseline; `Api.AnswerTells` says what the answer holds |
| `Api.Server.Diff` | internal/api/server.go:183-208 | answers both sources of a node, and refuses any comparison but the one with the baseline; `Api.AnswerTells` says what the answer holds |
| `Api.AnswerCovers` | internal/api/server.go:194-206 | the answer holds exactly the sources that have a snapshot, and is not found if and only if neither has one |
| `Api.AnswerTells` | internal/api/server.go:183-240 | for each source, from the stored rows: one row per key of either side, in name order, with its field in the newest baseline, if any, and in the latest snapshot, if any, flagged if and only if there is a baseline and the two differ or one is missing; both times, the driver, and the note exactly when there is no baseline |
| `Api.NothingFlaggedExactlyWhenEqual` | internal/api/server.go:219-231 | no row is flagged if and only if the two field maps are equal |
| `Api.FlaggedAgainstRecorded` | internal/api/server.go:219-231 | every recorded field is flagged, and exactly which other rows are |
| `Netlink.First` | internal/netlink/view.go:90-107 | the lookups answer the first match and nothing only if there is none |
| `Netlink.LinkNames` | internal/netlink/view.go:110-117 | the sorted names of all links |
| `Cni.AddLinkFields` | internal/cni/driver.go:116-138 | a link's four fields, all absent when the read succeeded and the link is not there |
| `CniRuns.BridgeIsDescribed` | internal/cni/driver.go:116-138 | what a successful read reports of the pod bridge: cni0 for Flannel, cilium_host for Cilium, its name, first IPv4 address, MTU and state, each absent without it; not_applicable for the other drivers |
| `CniRuns.OverlayIsDescribed` | internal/cni/driver.go:116-151 | likewise of the overlay in an overlay mode, with its neighbours; not_applicable in the others |
| `CniRuns.CommonIsReported` | internal/cni/driver.go:206-248 | every driver reports the routes, the interfaces and the state and carrier of the device of the first IPv4 default route |
| `CniRuns.VxlanStates` | internal/cni/driver.go:116-151 | in an overlay mode, exactly when each of the two fields only a VXLAN device has is unknown, not_applicable, present and absent |
| `CniRuns.VxlanIsDescribed` | internal/cni/driver.go:116-151 | and that they hold the device's network identifier and local address |
| `CniRuns.VxlanAlertsExactly` | internal/cni/driver.go:116-151 | exactly which two reads alert on them: a link that is no VXLAN device, as in IPIP mode, never does |
| `Cni.Neighbours` | internal/cni/driver.go:191-203 | the loop computes the neighbour field |
| `Cni.NeighboursTell` | internal/cni/driver.go:191-203 | sorted, exactly the entries of the device without the NOARP ones; absent without the device |
| `Cni.PodCidrRoutes` | internal/cni/driver.go:156-188 | the loops compute the routes field |
| `Cni.RoutesTell` | internal/cni/driver.go:156-188 | sorted, exactly the non-default routes inside any pod CIDR; unknown when no CIDR is known |
| `Cni.Interfaces` | internal/cni/driver.go:223-241 | the loop computes the interfaces field |
| `Cni.InterfacesTell` | internal/cni/driver.go:223-241 | sorted, exactly the links but loopback and veth |
| `Drivers.Flannel.Topology` | internal/cni/flannel.go:25-44 | pins the mode on the first read and keeps it; `CniRuns.PinnedOverlayIsShown` says which |
| `CniRuns.PinnedOverlayIsShown` | internal/cni/flannel.go:25-44 | for each driver, from the links alone: the overlay of the mode it pins is the one the read shows, and it pins a mode without one if and only if none is shown; Calico's tunl0 counts only with an IPv4 address and without vxlan.calico, Cilium's cilium_geneve only without cilium_vxlan |
| `CniRuns.PinnedModeTells` | internal/cni/calico.go:36-58 | which mode that is, link by link, and its name in the sample |
| `Drivers.Calico.Topology` | internal/cni/calico.go:36-58 | the same, with a tunl0 that counts only with an address, and no pod bridge ever |
| `Drivers.Cilium.Topology` | internal/cni/cilium.go:35-54 | the same, with two overlay links |
| `Drivers.Driver.Run` | internal/cni/driver.go:85-109 | runs any driver against a read and completes its fields: not_applicable by topology, unknown on failure or omission |
| `Drivers.CompleteKeys` | internal/cni/driver.go:96-107 | each key in turn, in any order |
| `CniRuns.PinIsFirstSuccess` | internal/cni/flannel.go:25-44 | a new driver pins the overlay that its first successful read shows, or none if it shows none, whatever comes after |
| `CniRuns.PinnedOverlayAlertsExactlyOnLoss` | internal/cni/driver.go:85-109 | in an overlay mode, over any reads, the overlay is never not_applicable and consecutive samples alert if and only if both reads succeeded with the link there and then gone |
| `CniRuns.FirstReadDecides` | internal/cni/driver.go:64-67 | from a new driver on, losses of a link are reported exactly if the first successful read showed it as the overlay; if it showed none, nothing about the overlay ever is |
| `CniRuns.FirstReadDecidesByLinks` | internal/cni/driver.go:64-67 | the same, driver by driver, in terms of the links of that read |
| `CniRuns.LateOverlayLossIsSilent` | internal/cni/flannel.go:25-44 | an overlay seen only after the first read vanishes without an alert |
| `CniRuns.CalicoBridgeNeverAlerts` | internal/cni/calico.go:36-58 | Calico's pod bridge is not_applicable or unknown, never absent, and never alerts |
| `CniRuns.FieldsComplete` | internal/cni/driver.go:85-109 | every generic key is there with a well-formed field, whatever the driver and the read |
| `Detection.Choose` | internal/cni/detect.go:23-40 | the selection, as an object no read has reached yet |
| `Detection.BestIsFirstOfMostCertain` | internal/cni/detect.go:32-39 | detection picks the first registered among the most certain |
| `Detection.GenericExactlyWithoutSignals` | internal/cni/detect.go:32-39 | the fallback is chosen if and only if no recognised CNI shows any signal |
| `Detection.SignalsTell` | internal/cni/calico.go:20-24 | what signals each CNI: its plugin in a configuration file, a DaemonSet of its name after any namespace, and its interfaces, which for Calico do not count beside cni0 |
| `Detection.ConfidenceTells` | internal/cni/driver.go:290-313 | how certain each combination of signals is |
| `Detection.ConfigIsAuthoritative` | internal/cni/driver.go:290-313 | a CNI named in the node's configuration is never beaten by one that is not |
| `Agents.AgentProcess.Redetect` | internal/agent/agent.go:151-167 | a driver of the same name is kept with its object and mode, another replaces it |
| `Agents.AgentProcess.Snapshot` | internal/agent/agent.go:147-183 | refreshes hints and driver, reads once, and takes the sample that follows |
| `AgentSamples.SampleTells` | internal/agent/agent.go:147-195 | every column of a sample, and its fields: the host's, else the network's, with the CIDRs of the hints or else the configured one |
| `AgentSamples.RemembersLatest` | internal/agent/agent.go:147-215 | the hints are the last ones answered, and the driver is looked for when there is none or the last look is as old as the period |
| `AgentSamples.DriverIsAskedFor` | internal/agent/agent.go:151-167 | the driver in use is the one the last look asked for, with the confidence and reason it was chosen with |
| `AgentSamples.DetectionReads` | internal/agent/agent.go:151-156 | a look reads the configuration files, the hints' DaemonSets and the node's links, none of them on a failed read |
| `AgentSamples.ForcedNameWins` | internal/cni/detect.go:23-40 | a configured driver name is taken as it is; any other leaves it to the signals |
| `Agents.AgentProcess.Post` | internal/agent/agent.go:217-237 | succeeds exactly when the collector accepted the sample and its answer arrived |
| `Agents.AgentProcess.Flushing` | internal/agent/agent.go:131-138 | posts oldest first until a post fails, ends, and leaves the store as if exactly the arrived samples had been ingested in order |
| `AgentSamples.FlushStopsAtFirstFailure` | internal/agent/agent.go:131-138 | the samples taken out are exactly those before the first post that fails, and one more arrives exactly when only the answer to that post is lost |
| `Agents.AgentProcess.Tick` | internal/agent/agent.go:124-139 | samples, drops what no longer fits, flushes |
| `OverlayRuns.PinKeptExactly` | internal/agent/agent.go:151-167 | a sampling keeps a pinned driver if and only if detection does not ask for another name |
| `OverlayRuns.LossIsRecordedExactly` | internal/agent/agent.go:147-183 | while it does not, the collector's comparison of any two samples alerts on the overlay exactly on a loss between two successful reads |
| `OverlayLogs.LossReachesLogExactly` | internal/agent/agent.go:124-183 | end to end, over a full buffer, lost posts and lost answers: the stored log has an overlay alert at some time if and only if a counted sample of that time lacks the link and the one counted before it showed it, however many were dropped in between |
| `OverlayRuns.BlindRedetectionLosesPin` | internal/agent/agent.go:151-167 | a redetection on a failed read replaces a driver recognised by its interfaces alone |
| `OverlayRuns.LossThenLooksLikeAMode` | internal/cni/flannel.go:25-44 | the next redetection then takes a vanished overlay for a mode without one |
| `AgentRuns.EverySampleAccountedFor` | internal/agent/agent.go:124-139 | over any network every sample is acknowledged, dropped or buffered; the buffer is the newest suffix and fits; only the oldest is dropped, when newer ones fill the buffer; arrivals follow sampling order |
| `AgentRuns.FlushDrains` | internal/agent/agent.go:131-138 | when every post is answered and none refused, the whole buffer arrives |
| `AgentRuns.RefusedBlocksUntilDropped` | internal/agent/agent.go:131-138 | over any intervals and network, a sample the collector always refuses never arrives; it leaves the buffer, dropped, exactly when as many newer samples as fit have come, and until then nothing newer arrives |
| `AgentRuns.FlushIsRun` | internal/agent/agent.go:131-138 | what a flush does to the store is what the recorder's ingest steps do, each at its own time |
| `AgentRuns.SamplesAreClean` | internal/cni/driver.go:85-109 | an agent's own samples are always accepted |
| `AgentRuns.PostedIsReceived` | internal/api/server.go:281-318 | in any run, whatever else happens in it, that contains a node's agent's posts, what the recorder ingests for the node is what its channel delivered |
| `AgentRuns.ReceivedInOrder` | internal/agent/agent.go:131-138 | with a node clock that does not run backwards, samples arrive in time order, repetitions included |
| `AgentRuns.LogCountsEachSampleOnce` | internal/api/server.go:281-318 | end to end, in any such run, each post at its own time, over lost posts and lost answers: the agent log as far back as changes are kept is the pairwise comparison of the samples that arrived, each counted once in sampling order, if each post is compared with the latest sample stored as with the post before it, which is exactly when the log agrees all along; sparing the latest sample is enough; every acknowledged sample is counted |

## Left out

- HTTP serving and clients, JSON decoding, port-forwarding, command lines, document generation and deployment files.
- SQLite itself, migrations, vacuum: statements have their relational meaning, and the size in use is any function of the tables.
- Failing database calls: a snapshot is always stored together with its changes. In the source the second of the two
  statements may fail alone, and a retry then compares with the snapshot already stored, so those changes are lost.
- Interleaving inside one tick or one handler: each is one step.
- The collector's clock never runs backwards. A node's clock may; `AgentRuns.ReceivedInOrder` says what follows if it does not.
- The order of events with equal times under a limit: taken to be rowid order, which SQL does not promise.
- Informer caches and resync timing: deliveries are any sequence of pod versions, deletions, node versions and events.
- The conversion of Kubernetes events and its timestamp fallbacks, and the event handler itself: an event arrives as the row to store.
- Kernel, /proc and CNI directory reads: a read is any view or failure, and host fields are any fields.
- CIDR parsing: whether a route lies inside a CIDR is an arbitrary function.
- JSON encoding of values: values are compared as data, as if encoding were canonical and kept by storage; numbers are
  unbounded, where the source has 32-bit restart counts and 64-bit integers.
- Posts that reach the collector after the agent has given up on them and sent something else.
- Configuration parsing and the hints endpoint: configurations and hints are arbitrary values.
- ReplayRuns.LogReplays: about api snapshots, whose fields are present or absent; `Differ.ReplayOneDiff` says when it holds for others.
