# Monitoring backend: verified models

A server-monitoring backend receives readings from agents and decides, over time, when to raise an alert,
what health to show, which events to record, which components to flag or delete, and when a device is in
maintenance. Almost all of this state lives in key stores with expiry, in counters and in small in-memory
maps. This project models those state machines in Dafny and proves what they guarantee over every run.

`dafny verify dfyconfig.toml` checks everything. No code of the backend was executed.

## How the models are built

Each component has the same three layers.

1. A class with the fields of the source and methods with its branches and loops. Each method's `ensures`
   gives the whole new state, by a function of the old one.
2. That function (`Step`, `Evaluate`, `Pass`, ...), folded over any sequence of inputs.
3. Lemmas that relate the fold to something that does not mention it: the readings seen so far, the
   consecutive misses in the reports, a map that is never pruned, a chart made by queries. The
   grading of a reading and the other basic decisions are restated there on the inputs' own fields and numbers.

Time is an integer clock passed in by the caller; a key is live as long as its expiry lies in the future.
Runs need nondecreasing time where a lemma says so. Configured values stay symbolic, and each lemma names
the inequality between them that it needs. Utilisations are reals. A handler is one step, except in
`Connection`, `UnknownEntities`, `PingLock`, `DiskFlags` and `Maintenance`, which interleave finer steps. Loops over Python sets take their elements in an arbitrary order.

| file | component |
|---|---|
| `TtlStore`, `Wrappers`, `Arithmetic` | expiring stores, options, division facts |
| `AlertEngine`, `AlertHistory` | strike counter and cooldown of the live alert path |
| `HealthStreaks` | health streaks and the verdict on an agent |
| `AlertThrottle`, `DiskAlerts`, `DiskRuns`, `CpuAlerts`, `CpuRuns` | duration-based level streaks and the throttle they feed |
| `Connection` | message queue and worker of one agent connection |
| `EventLimits`, `EventCooldown` | the two self-pruning rate maps |
| `Countdown`, `DiskDeletion`, `DiskDeletionRuns`, `PortDeletion` | countdown to deletion with cascades |
| `DiskFlags`, `UnknownEntities` | flagging and verifying disks, reporting unknown components |
| `Maintenance`, `Suppression`, `PingLock` | maintenance windows and periodic jobs, their effect on alerts, the ping lock |
| `Buckets`, `OsUuids` | one-pass bucketing, nested strip and restore |

## What the proofs found

- The disk and partition limits can be reached in the same pass. The cascade then removes the partition
  before its own loop looks it up, and the pass ends with an attribute error
  (`DiskDeletionRuns.CrashFreeExactly`, `CrashReachable`).
- A CPU trigger need not follow a sustained breach: a reading at a lower level leaves the higher track
  alive. The comment in the code holds for the lowest level only (`CpuRuns.SustainedIffLowest`).
- With throttle and streak both at five minutes, as in the settings, a CPU trigger can be throttled as soon
  as the alert service reads its clock any later than the evaluation did (`CpuRuns.EqualMinutesAllowNoLag`).
- A cancelled send of an unknown component leaves its key reported for good, and enough of them silence the
  service (`UnknownEntities.AllLiveIffNoneCancelled`, `ServiceSilenced`).
- `is_in_maintenance` changes its answer at exactly one instant, the end of a scheduled window, depending
  on whether the enabling job has been executed (`Maintenance.EnableChangesOnlyTheEnd`). A message handler
  that read the agent before maintenance began overwrites the shown health (`AgreesIffSavesSafe`) and
  mails alerts that maintenance should suppress (`Suppression.StaleReadExactly`, `StaleReadMails`).
- The two chart services disagree exactly on rows that lie on an interval boundary, and the oldest
  instant of the queried window falls into no bucket of the one-pass form (`Buckets.FormsAgreeIff`,
  `ExactlyOneBucket`).
- Partition ids come back to the right storage only if no storage without a partition list precedes one
  with partitions (`OsUuids.ShapeRoundTripsIff`). The call sites of the two functions are commented out at
  this commit.
- A single disk evaluation can add two alert rows only if the alert service's own clock advances by a
  whole throttle interval during it (`DiskRuns.OneRowEachIff`).
- The rate limit needs no assumption that the clock exceeds the interval: both maps read a missing key as
  instant zero (`EventLimits.PruningInvisibleIff`).

Where code and comments differ, the model follows the code: the health requirements are 1 and 2 (the
comments beside them say 2 and 3), a single critical reading therefore shows red, and a streak of one never
alerts even with a strike count of one.

## Model

| member | source | states |
|---|---|---|
| `AlertEngine.Engine.CheckThresholdAndAlert` | src/backend/BaseApp/Services/AgentMonitoring/monUtils.py:7-98 | The whole new state of one reading: the streak key is set, counted with a renewed TTL or left, the alert rows, mails and cooldown key appear exactly on a fire, and nothing else in the store moves. Proved against `Step`, whose meaning is given by the history lemmas below. |
| `AlertEngine.Engine.ResetStreak` | src/backend/BaseApp/Services/AgentMonitoring/monUtils.py:101-110 | A green reading deletes exactly the live streak keys of its component, never a cooldown key or another component's key. |
| `AlertEngine.Engine.RecordEvent` | src/backend/BaseApp/models/models.py:357-436 | A fire adds one event and one alert; in maintenance the alert is marked suppressed and no mail goes out. |
| `AlertHistory.StreakRefined` | src/backend/BaseApp/Services/AgentMonitoring/monUtils.py:58-66 | In every run the live streak key holds the number of readings of that severity since the last green one or the last gap of 3600 s, and is absent when that number is zero. |
| `AlertHistory.CoolingRefined` | src/backend/BaseApp/Services/AgentMonitoring/monUtils.py:80-89 | In every run the cooldown key is live exactly while some alert that the history called for is younger than its cooldown. |
| `AlertHistory.AlertRefined` | src/backend/BaseApp/Services/AgentMonitoring/monUtils.py:20-98 | In every run and for every next reading the engine fires a severity if and only if the history alone calls for it: utilisation above the critical threshold for Critical, above the warning one and not above the critical one for Warning, at least the max(2, strike count)-th such reading of its streak, outside every cooldown of that severity. The specification is on the readings' numbers; it has no store and no expiry. |
| `AlertHistory.RunRefined` | src/backend/BaseApp/Services/AgentMonitoring/monUtils.py:20-98 | Over a whole run the store is the one of the engine without maintenance and the events are exactly those the history calls for, in order. |
| `AlertHistory.WindowsOnlySuppress` | src/backend/BaseApp/models/models.py:357-436 | Two runs that differ only in maintenance windows have the same store and the same events; there is one alert per firing reading, suppressed exactly if that reading was checked inside a window, and the mails are exactly the events of the other firing readings. |
| `AlertHistory.ComponentsIndependent` | src/backend/BaseApp/Services/AgentMonitoring/monUtils.py:46-48 | In any interleaving of readings of many components, each component gets exactly the alerts it gets when its readings come alone. |
| `AlertHistory.AlertsSpaced` | src/backend/BaseApp/Services/AgentMonitoring/monUtils.py:80-89 | With a constant cooldown of m minutes, alerts of one severity on one component are at least 60·m seconds apart, however often green readings reset the streak. |
| `AlertHistory.AlertRateBounded` | src/backend/BaseApp/Services/AgentMonitoring/monUtils.py:80-107 | A window of length L therefore holds at most 1 + ⌊L / (60·m)⌋ of them. |
| `HealthStreaks.Evaluator.UpdateAndGetStreak` | src/backend/BaseApp/Services/AgentMonitoring/agentMonitoringHandler.py:70-89 | One state on one component: the new counters, their renewed TTL, and the returned pair is what is stored. |
| `HealthStreaks.Evaluator.EvaluateRecords` | src/backend/BaseApp/Services/AgentMonitoring/agentMonitoringHandler.py:195-221 | The inner loop equals feeding the metric's samples to the counter, ending at the first sample that makes the verdict red. |
| `HealthStreaks.Evaluator.EvaluateAgentHealth` | src/backend/BaseApp/Services/AgentMonitoring/agentMonitoringHandler.py:149-223 | The nested loops with their early return equal one pass over the flattened samples: same store, same verdict. |
| `HealthStreaks.CountsAreTrailingRuns` | src/backend/BaseApp/Services/AgentMonitoring/agentMonitoringHandler.py:71-89 | In every run the stored red and amber counters are the lengths of the trailing red and amber runs with gaps below 300 s, and at most one of them is positive. |
| `HealthStreaks.EvaluateStores` | src/backend/BaseApp/Services/AgentMonitoring/agentMonitoringHandler.py:173-223 | An evaluation stores exactly the samples up to and including the first red one. |
| `HealthStreaks.HealthVerdict` | src/backend/BaseApp/Services/AgentMonitoring/agentMonitoringHandler.py:149-223 | After any earlier run: red if and only if some record with both thresholds configured reaches its critical one; otherwise amber if and only if some sample is the second or later in a row, with gaps below 300 s, of its component with warning ≤ value < critical; and what is stored afterwards. All on values. |
| `HealthStreaks.SamplesAre` | src/backend/BaseApp/Services/AgentMonitoring/agentMonitoringHandler.py:173-216 | The samples of an entry are exactly the values of its records that have one, of the metrics with both thresholds, under the agent, metric and component they name. |
| `HealthStreaks.SamplesAppend` | src/backend/BaseApp/Services/AgentMonitoring/agentMonitoringHandler.py:173-216 | They come in the order of the entry; `RecordSamplesAppend` says the same of the records of one metric. |
| `HealthStreaks.QuietIsGreen` | src/backend/BaseApp/Services/AgentMonitoring/agentMonitoringHandler.py:201-223 | Values below both of their thresholds give green, whatever came before. |
| `HealthStreaks.SecondAmberShows` | src/backend/BaseApp/Services/AgentMonitoring/agentMonitoringHandler.py:201-223 | A steady amber component gives amber with its second entry, whatever came before. |
| `AlertThrottle.Service.TriggerUtilizationAlert` | src/backend/BaseApp/wss_services/services/alertservice.py:79-157 | Whole new state of one request: a row and a new send instant exactly when the request is known, complete, at warning level or above, and not throttled. |
| `AlertThrottle.TriggerKeepsSpacing` | src/backend/BaseApp/wss_services/services/alertservice.py:120-130 | One request keeps the rows of every key a throttle interval apart and the send map at the instant of each key's latest row. |
| `AlertThrottle.RowsSpaced` | src/backend/BaseApp/wss_services/services/alertservice.py:222-225 | In every run of one service instance the rows under one key are at least the throttle interval apart, and the send map holds the latest of each. |
| `AlertThrottle.TriggerExactly` | src/backend/BaseApp/wss_services/services/alertservice.py:96-130 | On any state whose send map holds the latest rows, a request adds a row if and only if it asks for an alert (complete, of a known type, Critical at or above the critical threshold, Warning between the two, nothing below) and no row under its key is younger than the throttle. |
| `AlertThrottle.RowExactlyWhenOld` | src/backend/BaseApp/wss_services/services/alertservice.py:111-130 | The same after every run of one service instance. |
| `DiskAlerts.Evaluator.EvaluateDiskAlerts` | src/backend/BaseApp/wss_services/services/diskservice.py:759-778 | New tracks and alert-service state of one evaluation, proved against `Evaluate`, which the next lemmas characterise. |
| `DiskAlerts.Evaluator.ProcessLevelStreak` | src/backend/BaseApp/wss_services/services/diskservice.py:781-811 | One level: opened, left, or fired with a renewed TTL and one request to the alert service. |
| `DiskAlerts.Evaluator.ClearAllLevels` | src/backend/BaseApp/wss_services/services/diskservice.py:814-817 | Below every threshold all tracks of the disk go, and no other. |
| `DiskRuns.LiveTracksAreReachedLevels` | src/backend/BaseApp/wss_services/services/diskservice.py:759-778 | Right after any evaluation the live tracks of the disk are exactly the levels whose threshold its utilisation reaches; other disks' tracks are untouched. |
| `DiskRuns.AtMostOneAlert` | src/backend/BaseApp/wss_services/services/diskservice.py:769-809 | However many levels mature together, one evaluation adds at most one alert row, provided the service's clock readings within it lie less than the throttle apart. |
| `DiskRuns.OneRowEachIff` | src/backend/BaseApp/wss_services/services/alertservice.py:120-130 | That condition is exact over runs: no evaluation of any run adds a second row if and only if the service's clock readings within one evaluation always lie less than the throttle apart. |
| `DiskRuns.WideSpreadDoubles` | src/backend/BaseApp/wss_services/services/alertservice.py:120-130 | The concrete run: a disk above every threshold, read twice a streak apart, whose second evaluation adds two rows. |
| `DiskRuns.StreakRefined` | src/backend/BaseApp/wss_services/services/diskservice.py:759-811 | In every run the live track of a level is the streak that the readings alone leave open: its start, whether it has fired, and its expiry. The streak is defined by recursion over the readings, without the cache. |
| `DiskRuns.FiresExactly` | src/backend/BaseApp/wss_services/services/diskservice.py:781-809 | In every run and at every reading a level fires if and only if the readings alone call for it: the level is reached, and its open streak has not fired and is old enough. |
| `DiskRuns.FiresIffMatures` | src/backend/BaseApp/wss_services/services/diskservice.py:781-809 | The same in terms of the opening reading: a level fires if and only if some reading opened a streak, every reading of the disk since then reached the level, this is the first of them to find it old enough, and it has not expired. |
| `DiskRuns.StreakExplained` | src/backend/BaseApp/wss_services/services/diskservice.py:781-811 | Every open streak has one opening reading, with the level reached ever since, and at most one fire since then. |
| `DiskRuns.TrackExplained` | src/backend/BaseApp/wss_services/services/diskservice.py:781-811 | Every live track of every run stands for such a streak. |
| `DiskRuns.FiresOnSustainedBreach` | src/backend/BaseApp/wss_services/services/diskservice.py:786-809 | The opening reading of the streak behind a fire, and that nothing fired since it opened. |
| `DiskRuns.SustainedBreachFires` | src/backend/BaseApp/wss_services/services/diskservice.py:786-809 | The converse half: the first reading of a sustained streak that is old enough, and comes before it expires, fires. |
| `DiskRuns.OneFirePerStreak` | src/backend/BaseApp/wss_services/services/diskservice.py:790-808 | Between two fires of a level a new streak opened, because the level was left or the fired track expired; the fires are a streak length apart. |
| `DiskRuns.FiresAsk` | src/backend/BaseApp/wss_services/services/diskservice.py:769-809 | In every run each level that the readings call for asks the alert service once, for that disk with that load, in the order of the levels, and nothing else does. |
| `DiskRuns.FireHasRow` | src/backend/BaseApp/wss_services/services/diskservice.py:797-808 | No fire is lost: if its load asks for an alert, a row of that severity, made for it or younger than the throttle, is there afterwards. |
| `DiskRuns.NoFireNoRow` | src/backend/BaseApp/wss_services/services/diskservice.py:786-795 | Without a fire the alert service is unchanged. |
| `CpuAlerts.Evaluator.EvaluateAlerts` | src/backend/BaseApp/wss_services/services/cpuservice.py:267-345 | New tracks and alert-service state of one reading, proved against `Evaluate`, which the next lemmas characterise. The alert service reads its own clock. |
| `CpuAlerts.Evaluator.ClearLowerLevels` | src/backend/BaseApp/wss_services/services/cpuservice.py:331-345 | A fire deletes exactly the tracks of lower thresholds of that CPU. |
| `CpuAlerts.Evaluator.ClearAllLevels` | src/backend/BaseApp/wss_services/services/cpuservice.py:347-353 | A reading below the lowest threshold deletes exactly the tracks of that CPU. |
| `CpuRuns.StartRefined` | src/backend/BaseApp/wss_services/services/cpuservice.py:275-353 | In every run the live track of a level is the start of the streak that the readings alone leave open: opened or restarted by its readings, ended by a reading below the lowest level or by a trigger of a higher one, gone after the TTL. Defined by recursion over the readings, without the cache. |
| `CpuRuns.TriggersExactly` | src/backend/BaseApp/wss_services/services/cpuservice.py:289-345 | In every run a level triggers if and only if the reading is of that level and the streak the readings leave open is old enough. |
| `CpuRuns.TriggersIffRipe` | src/backend/BaseApp/wss_services/services/cpuservice.py:289-345 | The same in terms of the starting reading: if and only if some earlier reading opened or restarted the streak, none has ended, opened or restarted it since, and its age lies between the required minutes and the TTL. |
| `CpuRuns.TriggersAsk` | src/backend/BaseApp/wss_services/services/cpuservice.py:314-323 | In every run the alert service is asked once for each trigger that the readings call for, for that CPU with that load, and otherwise only by other components. |
| `CpuRuns.TriggersSpaced` | src/backend/BaseApp/wss_services/services/cpuservice.py:302-345 | Triggers of one level of one CPU are at least the required minutes apart, across restarts, clears and expiry. |
| `CpuRuns.TriggerNeverThrottled` | src/backend/BaseApp/wss_services/services/alertservice.py:120-130 | With equal thresholds, every trigger at warning or above gets its alert row, whatever other components ask of the shared service in between, if throttle plus lag ≤ streak; lag bounds how much later than the evaluation the alert service reads its clock. |
| `CpuRuns.AlwaysServedIff` | src/backend/BaseApp/wss_services/services/alertservice.py:121-130 | That condition is exact: every such trigger of every run gets its row if and only if throttle + lag ≤ streak or the throttle is not positive. |
| `CpuRuns.EqualMinutesAllowNoLag` | src/backend/BaseApp/wss_services/services/alertservice.py:222-225 | With throttle and streak equal, as in the settings, every trigger is served if and only if the lag is zero. |
| `CpuRuns.LagSwallows` | src/backend/BaseApp/wss_services/services/alertservice.py:121-127 | The concrete run: a steady critical load whose first trigger is stamped late has its second one swallowed. |
| `CpuRuns.SustainedIffLowest` | src/backend/BaseApp/wss_services/services/cpuservice.py:302-314 | The comment at line 314 calls a trigger a sustained breach. That holds in every run if and only if the level is the lowest one; a dip to a lower level leaves a higher track alive. |
| `CpuRuns.DipIsForgotten` | src/backend/BaseApp/wss_services/services/cpuservice.py:289-314 | The concrete run: reached, left for a lower level, reached again, and triggered as if it had never been left. |
| `PingLock.OneTaskPerGroup` | src/backend/BaseApp/tasks.py:73-108 | Over every interleaving of starts, ends, hard kills and time, with lock timeout > hard limit, at most one ping job per group is in its critical section and the lock that its `finally` deletes is live and its own. |
| `PingLock.GetsInExactly` | src/backend/BaseApp/tasks.py:79-82 | A job that starts gets in if and only if its group's lock is not held, and then owns it. |
| `PingLock.FreeAgain` | src/backend/BaseApp/tasks.py:107-108 | When a job ends its group is free at once. |
| `PingLock.KillKeepsLock` | src/backend/BaseApp/tasks.py:73-80 | A kill leaves the lock in place. |
| `PingLock.FreeAfterTimeout` | src/backend/BaseApp/tasks.py:79-80 | In every run no group stays blocked for longer than the lock timeout, kills included. |
| `PingLock.ExclusiveIffLockOutlives` | src/backend/BaseApp/tasks.py:73-80 | Mutual exclusion in every run holds if and only if the lock timeout exceeds the hard limit. |
| `PingLock.SourceLimitsExclude` | src/backend/BaseApp/tasks.py:73-80 | With the values in the code (70 and 60) it holds. |
| `Connection.Consumer.Receive` | src/backend/BaseApp/wss_services/consumer.py:189-213 | Ignored when disconnected; otherwise counted as received and either queued at the back or counted as dropped. |
| `Connection.Consumer.TakeNext` | src/backend/BaseApp/wss_services/consumer.py:237-243 | The worker takes the head of the queue. |
| `Connection.Consumer.FinishMessage` | src/backend/BaseApp/wss_services/consumer.py:245-271 | Only a completed message counts as processed; a cancelled or disconnected worker stops, any other goes on. |
| `Connection.Consumer.Disconnect` | src/backend/BaseApp/wss_services/consumer.py:82-85 | The connection becomes inactive and nothing else changes. |
| `Connection.QueueConserves` | src/backend/BaseApp/wss_services/consumer.py:189-274 | In every interleaving: accepted = settled, then in work, then queued, in order; received = processed + dropped + abandoned + in work + queued; the queue stays within its bound; what the worker took is a prefix of what was accepted. |
| `Connection.CountersExactly` | src/backend/BaseApp/wss_services/consumer.py:194-274 | In every interleaving received counts the messages that arrive while connected, processed counts the completions, and the worker only stops when cancelled or after the connection ended: no timeout and no failing message stops it. |
| `Connection.DroppedExactly` | src/backend/BaseApp/wss_services/consumer.py:202-213 | In every state an arriving message is dropped if and only if the queue is bounded and full, and queued otherwise. |
| `Connection.Drains` | src/backend/BaseApp/wss_services/consumer.py:237-251 | From every state with a live connection and an uncancelled worker, all accepted messages can still be processed, in order. |
| `Connection.DisconnectIsFinal` | src/backend/BaseApp/wss_services/consumer.py:133-150 | After a disconnect nothing is received or queued any more, and a worker that waits takes at most one further message. |
| `EventLimits.EventService.CheckRateLimit` | src/backend/BaseApp/wss_services/services/eventservice.py:83-104 | The answer and the rebuilt map: old entries pruned, the slot taken exactly when not limited. |
| `EventLimits.EventService.CreateEvent` | src/backend/BaseApp/wss_services/services/eventservice.py:110-208 | Validation first, rate limit second, duplicate filter third, storing last: new rates, duplicate keys with the timeout of the call, events and statistics; a duplicate or failed event has used up its rate slot. |
| `EventLimits.PruningInvisibleIff` | src/backend/BaseApp/wss_services/services/eventservice.py:92-104 | In every run with non-negative, nondecreasing times, the pruned map decides every attempt as a never-pruned one, if and only if MIN_EVENT_INTERVAL ≤ 0 or MIN_EVENT_INTERVAL ≤ RATE_LIMIT_WINDOW. |
| `EventLimits.PassedAttemptsSpaced` | src/backend/BaseApp/wss_services/services/eventservice.py:98-104 | Attempts that pass the limit are at least the interval apart per key. |
| `EventLimits.CreatedEventsSpaced` | src/backend/BaseApp/wss_services/services/eventservice.py:158-201 | In every run an unforced duplicate is created only when the latest event remembered under its key has timed out by that event's own timeout; the cache holds exactly the remembered keys; and the rate map is that of the valid attempts. |
| `EventLimits.DuplicateExactly` | src/backend/BaseApp/wss_services/services/eventservice.py:158-169 | After every run of one service instance the filter holds an attempt back if and only if it is an unforced duplicate of a remembered event that has not timed out. |
| `EventLimits.AllDuplicatesSpaced` | src/backend/BaseApp/wss_services/services/eventservice.py:158-201 | With one timeout for all calls, any two remembered events with the same key, the later unforced, are at least that timeout apart. |
| `EventLimits.LimitedExactly` | src/backend/BaseApp/wss_services/services/eventservice.py:98-104 | In every run an attempt is limited if and only if one with its key passed less than the interval before it, or none ever passed and the clock is below the interval. |
| `EventLimits.RatesStayYoung` | src/backend/BaseApp/wss_services/services/eventservice.py:92-96 | After an attempt the map holds no other entry older than the window. |
| `EventLimits.OutcomeExactly` | src/backend/BaseApp/wss_services/services/eventservice.py:130-208 | After every run the next attempt is invalid, limited, held back as a duplicate, lost or created exactly as its fields and the earlier attempts say; it is created, remembered and counted under the name of its outcome and no other. |
| `EventLimits.CreatedIff` | src/backend/BaseApp/wss_services/services/eventservice.py:171-187 | An event is created if and only if the attempt is valid, not limited, not an unforced duplicate within the timeout, and the database takes it. |
| `EventLimits.EveryAttemptCounted` | src/backend/BaseApp/wss_services/services/eventservice.py:130-208 | The statistics account for every call: calls = rate-limited + hits + creates + errors, and creates is the number of events. |
| `EventCooldown.Consumer.CreateEventWithCooldown` | src/backend/BaseApp/wss_services/consumer.py:519-613 | Nothing without agent and connection; once-per-session kinds by flag, others by cooldown; the flag or instant is set only if an event was created, and a full cache is cleaned. |
| `EventCooldown.CleaningInvisibleIff` | src/backend/BaseApp/wss_services/consumer.py:583-611 | In every run the cleaned cache decides every request as one that keeps everything, if and only if the cooldown is ≤ 0 or the clean-up multiplier is ≥ 1. |
| `EventCooldown.AsksExactly` | src/backend/BaseApp/wss_services/consumer.py:524-591 | In every run, with agent and connection, a session kind asks if and only if no event of its kind was made before, any other kind if and only if none was made under its key within the cooldown. |
| `EventCooldown.CacheStaysSmall` | src/backend/BaseApp/wss_services/consumer.py:606-611 | After a recorded event the cache is within its size or holds nothing older than the clean-up age. |
| `EventCooldown.CreatedEventsSpaced` | src/backend/BaseApp/wss_services/consumer.py:583-604 | Events let through for one key are at least the cooldown apart. |
| `Countdown.TouchedStep` | src/backend/BaseApp/models/models.py:166-171 | Whatever missing uuids were handled before, handling one more extends the outcome of the pass by that uuid alone: the order of the loop does not matter. |
| `Countdown.TracksStep` | src/backend/BaseApp/services/agent_monitoring/disk_monitoring_service.py:275-305 | One pass on one component: seen resets the counter, a survived miss counts up, and the miss after that deletes. |
| `DiskDeletion.Service.HandleDeletions` | src/backend/BaseApp/services/agent_monitoring/disk_monitoring_service.py:255-344 | One pass in any loop order: disks deleted with their partitions, the two reported lists without repetition, the new counters, exactly when the pass ends with an error, and what it has done by then. |
| `DiskDeletion.Service.HandleMissingDisks` | src/backend/BaseApp/services/agent_monitoring/disk_monitoring_service.py:272-305 | The disk loop, in any order: each disk over its limit is deleted with its partitions and reported once; the others are counted. |
| `DiskDeletion.Service.HandleMissingPartitions` | src/backend/BaseApp/services/agent_monitoring/disk_monitoring_service.py:308-342 | The partition loop, in any order: it fails if and only if some partition over its limit is gone already, and has then handled exactly some of the missing ones; otherwise exactly those over the limit are deleted and reported once. |
| `DiskDeletionRuns.DiskCountdown` | src/backend/BaseApp/services/agent_monitoring/disk_monitoring_service.py:256-305 | Over every run with a fixed inventory, also past failed passes: a disk is there until it is missed once more in a row than the limit, and until then its counter is its consecutive misses less one; any sighting resets it. |
| `DiskDeletionRuns.DiskDeletedExactly` | src/backend/BaseApp/services/agent_monitoring/disk_monitoring_service.py:285-303 | A pass deletes a disk if and only if it brings its consecutive misses to limit + 1 for the first time. |
| `DiskDeletionRuns.PartitionCountdown` | src/backend/BaseApp/services/agent_monitoring/disk_monitoring_service.py:308-342 | The same for partitions while their disk is there and no pass has failed. |
| `DiskDeletionRuns.PartitionNeverEarly` | src/backend/BaseApp/services/agent_monitoring/disk_monitoring_service.py:308-342 | Also past failed passes, which leave some misses uncounted, a partition only goes with its disk or after more consecutive misses than it survives, and its counter stays below its consecutive misses. |
| `DiskDeletionRuns.CrashFreeExactly` | src/backend/BaseApp/services/agent_monitoring/disk_monitoring_service.py:316-331 | A whole run is free of failing passes, each of which calls `delete` on a partition that its disk took along, if and only if its reports never bring a partition and the disk under it over their limits in the same pass; said on the reports alone. |
| `DiskDeletionRuns.CrashExactly` | src/backend/BaseApp/services/agent_monitoring/disk_monitoring_service.py:316-331 | As long as no earlier pass has failed, a pass fails if and only if its report does that. |
| `DiskDeletionRuns.CrashNeeds` | src/backend/BaseApp/services/agent_monitoring/disk_monitoring_service.py:316-331 | Also past failed passes, every failing pass is the one that deletes some disk, and a partition on it has more consecutive misses than it survives. |
| `DiskDeletionRuns.CrashReachable` | src/backend/BaseApp/services/agent_monitoring/disk_monitoring_service.py:330-331 | Whatever the two limits, some run of reports leads to that failure. |
| `PortDeletion.Service.HandlePortDeletions` | src/backend/BaseApp/services/agent_monitoring/network_monitoring_service.py:126-189 | In any order over the missing ports, and however many ports of one card are due together: exactly the cards of due ports are deleted, each reported once, no port of them survives, and the counters are those of the remaining rows. |
| `PortDeletion.Service.HandleMissingPort` | src/backend/BaseApp/services/agent_monitoring/network_monitoring_service.py:147-187 | The loop body: first miss, further miss, or deletion of the card if the port is still there. |
| `PortDeletion.NicCountdown` | src/backend/BaseApp/services/agent_monitoring/network_monitoring_service.py:134-189 | Over every run with a fixed inventory a card is there until one of its ports has been missed once more in a row than its limit; its ports live as long as it does, and their counters are their consecutive misses less one. |
| `DiskFlags.Service.ProcessDiskData` | src/backend/BaseApp/wss_services/services/diskservice.py:90-125 | One cycle, with replies of the agent arriving between the read of the rows and the writes: the result of every payload entry (a reported disk whose record can be prepared is recorded if and only if it was unflagged at the start), the disks handed to alert evaluation, the new flags and the verification requests; a cycle that breaks off before the insert is done changes nothing. |
| `DiskFlags.ResultExactly` | src/backend/BaseApp/wss_services/services/diskservice.py:194-291 | Which of the five results an entry gets, on its fields and the disk's row. |
| `DiskFlags.Service.HandleMissingDisks` | src/backend/BaseApp/wss_services/services/diskservice.py:417-438 | On rows that replies may have changed since they were read: missing known disks are flagged, reappeared ones unflagged, and a request goes out for each newly flagged one. |
| `DiskFlags.Service.FlagMissing` | src/backend/BaseApp/wss_services/services/diskservice.py:497-537 | In any order: all are flagged, one request per disk that was not flagged before. |
| `DiskFlags.Service.UnflagReappeared` | src/backend/BaseApp/wss_services/services/diskservice.py:554-587 | In any order: all are unflagged, no requests. |
| `DiskFlags.Service.HandleVerificationReply` | src/backend/BaseApp/wss_services/services/diskservice.py:606-703 | "exists" unflags the disk of that device; "does not exist" changes nothing. |
| `DiskFlags.FlaggedAreMissing` | src/backend/BaseApp/wss_services/services/diskservice.py:401-438 | When a cycle finishes, the flagged disks of its device are exactly those known and not reported, whatever replies came in between; other devices keep their rows. |
| `DiskFlags.FlagIsLastWord` | src/backend/BaseApp/wss_services/services/diskservice.py:417-438 | Over every interleaving of cycles, broken-off cycles and replies of all devices, a disk's flag is what the latest finished cycle of its device or a later "exists" reply said. |
| `DiskFlags.RequestsAreFlaggings` | src/backend/BaseApp/wss_services/services/diskservice.py:517-521 | Over every such interleaving the requests sent for a disk equal its changes from unflagged to flagged. |
| `DiskFlags.ReappearedDiskSkipsOneCycle` | src/backend/BaseApp/wss_services/services/diskservice.py:219-232 | A disk that comes back is skipped in its first cycle and recorded in the next. |
| `UnknownEntities.Service.Admit` | src/backend/BaseApp/wss_services/services/unknown_handler.py:28-59 | The key to send and the new set: refused without a response sender, when invalid, when the set is full, or when already reported. |
| `UnknownEntities.SameKeyIff` | src/backend/BaseApp/wss_services/services/unknown_handler.py:73-82 | Two items share a key if and only if they are the same component: disks by device and name, partitions by disk and partition whatever the device, ports by the device they name or else the reporting one and interface; missing names stand for their defaults. |
| `UnknownEntities.SentExactly` | src/backend/BaseApp/wss_services/services/unknown_handler.py:33-63 | In every state an item is sent if and only if there is a sender, it is valid, the limit is not reached and its component is not reported already. |
| `UnknownEntities.SentAgain` | src/backend/BaseApp/wss_services/services/unknown_handler.py:58-102 | In every state a component whose window is over is sent again when it is next reported. |
| `UnknownEntities.Service.ExpireKey` | src/backend/BaseApp/wss_services/services/unknown_handler.py:99-103 | The timer removes its key and nothing else. |
| `UnknownEntities.ReportedKeysPlaced` | src/backend/BaseApp/wss_services/services/unknown_handler.py:42-71 | In every interleaving of calls, sends, timers and cancellations the reported keys stay within the maximum, and each is in exactly one place: one send in flight, one timer, or a cancelled send. |
| `UnknownEntities.ResentOnlyAfterWindow` | src/backend/BaseApp/wss_services/services/unknown_handler.py:54-71 | A key that is sent again has waited the whole expiry window since its latest send ended. |
| `UnknownEntities.AllLiveIffNoneCancelled` | src/backend/BaseApp/wss_services/services/unknown_handler.py:61-71 | Every reported key has a send in flight or a timer if and only if no send was ever cancelled: a cancellation passes the `except Exception` and skips the timer. |
| `UnknownEntities.CancelledForGood` | src/backend/BaseApp/wss_services/services/unknown_handler.py:54-71 | A key whose send was cancelled is never sent again in any continuation. |
| `UnknownEntities.CancelledSendsCanBlock` | src/backend/BaseApp/wss_services/services/unknown_handler.py:50-52 | Once as many sends as the maximum were cancelled, no unknown component is reported at all. |
| `UnknownEntities.CancelledSendsPile` | src/backend/BaseApp/wss_services/services/unknown_handler.py:42-71 | Runs that cancel the sends of any number of disks up to the maximum. |
| `UnknownEntities.ServiceSilenced` | src/backend/BaseApp/wss_services/services/unknown_handler.py:42-71 | Whatever the maximum, some run after which no continuation ever reports anything. |
| `Maintenance.Table.EnableScheduledMaintenance` | src/backend/BaseApp/tasks.py:185-233 | Exactly the due agents enter maintenance, each once; all others keep every field. |
| `Maintenance.Table.DisableExpiredMaintenance` | src/backend/BaseApp/tasks.py:142-181 | Exactly the agents that the query finds expired, with the mode on or only scheduled, are reset, whatever others have written to their rows before the save; all others keep every field. |
| `Maintenance.Table.ProcessMonitoringData` | src/backend/BaseApp/Services/AgentMonitoring/agentMonitoringHandler.py:276-287 | A message changes the shown health exactly when the agent is not in maintenance. |
| `Maintenance.GuardsExclusive` | src/backend/BaseApp/tasks.py:145-201 | The two queries never select the same agent at the same instant. |
| `Maintenance.EnableAchieves` | src/backend/BaseApp/tasks.py:197-222 | After an execution of the enabling job the mode is on if and only if it was, or the agent is in maintenance and not at the end of its window; nothing else changes. |
| `Maintenance.DisableAchieves` | src/backend/BaseApp/tasks.py:145-167 | After an execution of the disabling job no window is left whose end has been reached, and only such a window is reset. |
| `Maintenance.EditExactly` | src/backend/BaseApp/services/webapp_services/agent_services/set_maintenance_service.py:65-88 | What each edit of the operator does, and that every other is refused. |
| `Maintenance.EnableCatchesUp` | src/backend/BaseApp/tasks.py:185-222 | In every run with safe saves that ends in the enabling job, an agent in maintenance has its mode on and shows it, except at exactly the end of its window. |
| `Maintenance.DisableCatchesUp` | src/backend/BaseApp/tasks.py:142-167 | In every such run that ends in the disabling job, no agent keeps a window whose end has been reached, and health says maintenance if and only if the mode is on. |
| `Maintenance.HealthIsLastWord` | src/backend/BaseApp/Services/AgentMonitoring/agentMonitoringHandler.py:276-287 | In every run the shown health is what the last enabling, disabling, edit, or message or save outside maintenance made it. |
| `Maintenance.EnableChangesOnlyTheEnd` | src/backend/BaseApp/models/models.py:303-324 | Enabling changes what `is_in_maintenance` answers at a later instant if and only if that instant is exactly the end of the window. |
| `Maintenance.DisableChangesOnlyTheEnd` | src/backend/BaseApp/models/models.py:303-324 | Likewise disabling, and only for a window that had never been enabled. |
| `Maintenance.EditKeptIff` | src/backend/BaseApp/tasks.py:145-167 | An edit between the query and the save of the disabling job is kept if and only if the query did not select the agent or the edit itself switches maintenance off. |
| `Maintenance.OneEnableOneDisable` | src/backend/BaseApp/tasks.py:142-216 | In any order and number of job executions and messages a window that no edit takes effect on is enabled at most once and disabled at most once, by a stage that each effective execution lowers. |
| `Maintenance.OnlyEditsShow` | src/backend/BaseApp/models/models.py:303-324 | In every run and from every point of it on, `is_in_maintenance` answers at t as the last edit that took effect since then made it, or as it did at that point without one, unless t is exactly the end of that window: jobs and messages never show. |
| `Maintenance.TasksDoNotShow` | src/backend/BaseApp/models/models.py:303-324 | In particular, without effective edits it answers at t as if neither job had ever been executed. |
| `Maintenance.HealthAlwaysAgrees` | src/backend/BaseApp/models/models.py:249-264 | In every reachable state, edits and arriving messages included, if each message is handled at once or saved right after its read: health says maintenance only while the mode is on, and says so as long as the mode is on and the window has not ended. |
| `Maintenance.AgreesIffSavesSafe` | src/backend/BaseApp/Services/AgentMonitoring/agentMonitoringHandler.py:244-287 | Over every interleaving of jobs, edits, and handlers that read the agent first and save once per entry later: the previous property holds after every step if and only if, at every save, the fields the handler read are in maintenance or the agent is not in maintenance with the mode on. |
| `Maintenance.StepAgreesIffSafe` | src/backend/BaseApp/Services/AgentMonitoring/agentMonitoringHandler.py:276-287 | The step behind it: from an agreeing state a step keeps the property if and only if it is not such a save. |
| `Maintenance.StaleSaveReachable` | src/backend/BaseApp/services/webapp_services/agent_services/set_maintenance_service.py:290-313 | A concrete run, with an edit between read and save, that breaks it. |
| `Suppression.JobsDoNotShow` | src/backend/BaseApp/models/models.py:357-384 | Maintenance and alerting together: whenever and however often the two jobs are executed, and whenever the message handlers read their agents, the events, alerts, suppressions and mails of a run are those that the scheduled windows alone make, except for readings at exactly the end of a window. |
| `Suppression.SuppressedExactly` | src/backend/BaseApp/models/models.py:366-385 | In every run, edits included, an alert is suppressed if and only if the fields that its handler read say maintenance at that instant; the mails are those of the other events. |
| `Suppression.StaleReadExactly` | src/backend/BaseApp/Services/AgentMonitoring/agentMonitoringHandler.py:244-265 | Those fields decide as the current ones would if and only if no edit took effect since the read, or the last one that did answers the same; apart from the exact end of the window. |
| `Suppression.StaleReadMails` | src/backend/BaseApp/Services/AgentMonitoring/agentMonitoringHandler.py:244-265 | The concrete run: maintenance is switched on between the read and two breaches of the message, and the alert is mailed. |
| `Buckets.FillBuckets` | src/backend/BaseApp/services/webapp_services/cpu_utilization_service.py:86-97 | The pass by floored division puts each row of the queried window into the bucket whose interval holds its age, in row order. |
| `Buckets.CpuUtilization` | src/backend/BaseApp/services/webapp_services/cpu_utilization_service.py:69-114 | The chart is that of the seven buckets, averaged and reversed; with a width of zero or less it has no rows instead of a division by zero. |
| `Buckets.MemoryUtilization` | src/backend/BaseApp/services/webapp_services/memory_utilization_service.py:20-55 | The chart is that of the seven per-interval queries. |
| `Buckets.FormsAgreeIff` | src/backend/BaseApp/services/webapp_services/cpu_utilization_service.py:69-97 | The two forms fill every bucket alike if and only if no row of the window lies on a boundary between intervals. |
| `Buckets.ChartExactly` | src/backend/BaseApp/services/webapp_services/cpu_utilization_service.py:99-114 | A chart has one point per bucket, the oldest first; each point has the age of its bucket's older boundary as label and the mean of its values, or zero, as value. |
| `Buckets.SelectAppend` | src/backend/BaseApp/services/webapp_services/cpu_utilization_service.py:91-97 | The selected values are those of the rows that satisfy the condition, one each, in row order; `SelectOne` is the case of one row. |
| `Buckets.BucketSizes` | src/backend/BaseApp/services/webapp_services/memory_utilization_service.py:24-36 | Bucket by bucket the forms differ exactly by the rows on a boundary: each form counts one of the two boundaries of an interval. |
| `Buckets.NoWidthNoRows` | src/backend/BaseApp/services/webapp_services/cpu_utilization_service.py:71-84 | With a width of zero or less the two forms agree. |
| `Buckets.ExactlyOneBucket` | src/backend/BaseApp/services/webapp_services/cpu_utilization_service.py:91-97 | A row is in some bucket of the one-pass form if and only if it lies strictly inside the window, and never in two. |
| `OsUuids.ExtractItems` | src/backend/BaseApp/services/agent_init_services/init_scan_service.py:331-337 | The inner loop: every item stripped, every id (or null) listed, in order. |
| `OsUuids.ExtractStorages` | src/backend/BaseApp/services/agent_init_services/init_scan_service.py:328-338 | The storage loop: one partition-id list per storage that has partitions, no gap for the others. |
| `OsUuids.StrippedExactly` | src/backend/BaseApp/services/agent_init_services/init_scan_service.py:324-338 | Extraction takes out every os_uuid key of the description, at every depth, and nothing else. |
| `OsUuids.RoundTripsIffCarries` | src/backend/BaseApp/services/agent_init_services/init_scan_service.py:318-385 | For every whole description in which no storage without a partition list precedes one with partitions: injecting undoes extracting if and only if every item carries the key and the device-level id, if present, is a non-empty value. |
| `OsUuids.PrefixRoundTrips` | src/backend/BaseApp/services/agent_init_services/init_scan_service.py:366-382 | The storage part of the sufficient half. |
| `OsUuids.ShapeRoundTripsIff` | src/backend/BaseApp/services/agent_init_services/init_scan_service.py:335-382 | For each shape of the storage list: the ids of all its descriptions come back if and only if no storage without a partition list precedes one with partitions. The list index of the injection is the storage index, that of the extraction is not. |
| `OsUuids.MarkIsLost` | src/backend/BaseApp/services/agent_init_services/init_scan_service.py:371-376 | With such a gap a concrete id does not come back to its partition. |

## Left out

- Maintenance.OneEnableOneDisable: the jobs are single steps of a run; that a save of the disabling job can overtake an edit is stated for one execution (`EditKeptIff`).
- DiskDeletionRuns.DiskCountdown: the inventory is fixed; a deleted uuid that is registered again, and pending rows of other devices, are not modelled.
- DiskFlags.Service.ProcessDiskData: two overlapping cycles of one device, an interruption between the writes of one cycle, and changes of the inventory during a cycle, are not modelled.
- DiskAlerts.Evaluator.EvaluateDiskAlerts: readings of 0 % never reach it, because the caller drops them; two concurrent evaluations of one disk are not interleaved.
- CpuAlerts.Evaluator.EvaluateAlerts: two concurrent evaluations of one CPU are not interleaved.
- EventCooldown.Consumer.CreateEventWithCooldown: the reset of the session flags when the connection ends is not modelled, because an ended connection asks for nothing any more; whether the event service creates an event is an input.
- AlertThrottle.RowsSpaced: one service instance; a new connection starts with an empty send map, so rows on either side of a reconnect need not be spaced, while the level tracks in the cache survive it.
- EventLimits.PassedAttemptsSpaced: one service instance likewise; the remembered keys of the duplicate filter live in the shared cache, those of other instances are not modelled.
- Connection.Consumer.FinishMessage: what processing a message does; an error inside it is swallowed there and counts as processed, as in the source.
- OsUuids.ExtractStorages: works on values; that the source strips the caller's nested dictionaries in place is not modelled.
- The concurrency limit of a message batch: a counting semaphore around independent calls would add only easy members.
- A cache reads and expires its entries by the clock that the evaluation read at its start, not by a later one of its own.
- Keys are structured values; strings that collide because a part contains a colon are not modelled.
- A cooldown of zero minutes, which Redis refuses as an expiry, is modelled as a cooldown that is over at once.
- Failures of the database, the caches, the mail service or an alert row's creation, and delivery by Celery or Channels.
- The hard time limit is taken to end a ping job before the clock passes it.
- `create_event` of monitored IP addresses; memory alerts, which repeat the CPU logic; partition verification in the disk service.
- The utilisation stored beside each streak start, log and message texts, chart labels, and rounding.
- Authentication, licensing, serializers, dashboards, migrations, the audit log of edits and the whole frontend.
