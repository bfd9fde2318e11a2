# Network monitor: a Dafny model of its engine

The monitor watches network devices: it probes them on an adaptive schedule, turns
probe results into an online / unknown / offline status, announces outages once,
suppresses alarms below a failed parent, and streams status changes to dashboards.
Around that core it guards logins, receives syslog and SNMP traps over UDP, derives
traffic rates from SNMP counters, and ships a small Junos configuration emulator for
its lab. This project models those parts and proves what they promise over every
input, every run and every interleaving the model allows.

The database and Redis are maps; each commit, with the cache write after it, is one
atomic step. Times are integers in milliseconds and device ids are numbers. Results
of probes, DNS, SNMP walks, datagrams and password checks are arbitrary inputs.

Stateful parts come twice: as functions on values, about which the theorems are
stated, and as classes whose methods change fields in place and are proved equal to
those functions.

| file | part |
|---|---|
| `Forest.dfy`, `Devices.dfy`, `History.dfy` | parent chains; one device's transitions; status, events and outage start as functions of history |
| `Monitor.dfy`, `Backend.dfy` | the shared state, its steps and run invariant; routes, check commit and alert cycle in place |
| `Alarms.dfy` | whole-run meaning of statuses, notices, suppression |
| `Interleaving.dfy` | alert cycles turn by turn, with checks and routes in between |
| `Scheduler.dfy`, `Detection.dfy`, `Cadence.dfy` | staggered schedule and ping loop; bounded detection, no starvation; when the fast cadence ends |
| `Latency.dfy` | from the first unanswered probe to the alarm |
| `LoginGuard.dfy` | sliding-window guard against the full record |
| `StatusBus.dfy` | coalescing gateway, dashboard reducer, end-to-end agreement with the database |
| `Counters.dfy` | counter deltas, telescoping, independent chains |
| `Ingest.dfy`, `RateLimit.dfy`, `Syslog.dfy` | UDP buffer, alert table, syslog parser |
| `Text.dfy`, `ConfigTree.dfy`, `ConfigDict.dfy`, `ConfigSession.dfy` | string operations; set statements, trie, brace text; nested dicts in place; the session |
| `Basics.dfy` | shared vocabulary |

## Where the code and its promises part

Each promise below fails on some input; the model has the input and says exactly
when the code keeps the promise.

- One alarm per outage: an outage that is over and back between two alert cycles is
  not announced again (`SecondOutageIsSilent`). An announced device hears nothing more
  exactly if every cycle finds it in alarm or disabled (`SilentIffCyclesFindAlarm`).
- `backend/app/api/routes/devices.py:496` promises an acknowledgement cleared on
  recovery. A service alarm that goes on loses it at the next answered check
  (`ServiceAlarmLosesAck`), one that ends while a ping is missed keeps it
  (`MissedPingKeepsAck`), and so does an outage ended by the simulate route
  (`ForcedRecoveryKeepsAck`). It goes with the alarm exactly over the steps of
  `AckFollowsAlarmIff`; over a run it is lost exactly at an answered check
  (`AckHeldIffNoReply`).
- A commit of an empty candidate is read back as the factory default, and a line
  with a carriage return comes back in pieces (`ReturnSplitsStatement`), which can be
  duplicates (`TypedReturnDuplicates`). Any other commit survives (`CommitReadsBack`).
- `delete` compares text: a statement typed with two spaces escapes it
  (`DeleteMissesDoubleSpace`), and a delete typed with two spaces removes nothing
  (`DoubleSpaceDeletesNothing`). A path is gone exactly if every statement at or below
  it is spaced singly through it (`DeletePathGoneIff`), and on normal statements
  exactly if it was typed with single spaces or was not there (`DeleteOnNormalGoneIff`).
- Overlapping login requests can exceed every limit (`OverlappingLoginsExceed`). No
  window does exactly if no failure is recorded while its client would be turned away
  (`BoundedThroughoutIff`); requests one after another never do that
  (`SequentialLoginsBounded`).
- `backend/app/services/syslog_listener.py:57` says nothing is ever dropped. A datagram
  leaves no row exactly if nothing follows its priority, its RFC 5424 header or its tag
  (`DroppedIffNothingSaid`): a bare priority, a tag alone (`TagAloneIsDropped`), or an
  RFC 5424 message without MSG (`PrintedDroppedIff`).
- A sent-octets column that is missing in one poll of two reads as traffic: as a wrap
  minus the old reading when it goes (`MissingColumnInventsTraffic`), as its whole
  counter when it comes back (`ReturningColumnReportsCounter`). The delta is the
  traffic exactly if both polls miss equally much (`SentExactIff`).
- Deleting a parent leaves its children's snapshots naming it (`SnapshotParentLags`).
  Cached parents stay right exactly while no deletion orphans a row
  (`ParentsAgreeThroughoutIff`).
- A check without news leaves the snapshot's last-check time behind, and an
  acknowledgement it dropped standing in it. Otherwise an entry that showed its row goes
  on showing it (`EntryShowsRowIff`).
- An alert cycle decides on the rows it loaded when it began, so a device that has
  answered since is announced all the same (`StaleAlarm`), and one deleted since ends
  the cycle for the devices after it (`DeletedRowEndsCycle`). In every interleaving a
  notice fits what was known at that load (`InterleavedInv`).
- One alert per host and cooldown: after a flood of more than 4096 hosts an evicted one
  alerts again (`FloodForgets`). Alerts stay apart exactly if no cooling host with a
  severe row was evicted (`AlertsSpacedIff`).

## Model

| member | source | states |
|---|---|---|
| Forest.AttachSafeIff | backend/app/api/routes/devices.py:83-109 | hanging a row under an existing parent keeps a forest a forest if and only if the row is not the parent or one of its ancestors |
| Forest.ChainsEnd | backend/app/api/routes/devices.py:94-109 | without a cycle no ancestor chain is longer than the table (pigeonhole), so every upward walk ends |
| Forest.NoCycleHasRank | backend/app/api/routes/devices.py:86-88 | a graph without a cycle has a rank that falls from child to parent; with RankedHasNoCycle the two are equivalent |
| Forest.RankedHasNoCycle | backend/app/api/routes/devices.py:86-88 | a rank that falls from child to parent excludes every cycle |
| Forest.DetachKeepsForest | backend/app/api/routes/devices.py:174-175 | clearing a parent keeps the forest |
| Forest.WithoutKeepsForest | backend/app/models/device.py:146-148 | deleting a row and nulling the parent of its children keeps the forest and the foreign key |
| Backend.Database.ValidateParent | backend/app/api/routes/devices.py:83-109 | the walk ends on every table, cyclic ones included, and refuses exactly: the device itself, a missing parent, a parent whose chain contains the device |
| Backend.Database.CreateDevice | backend/app/api/routes/devices.py:113-138 | new state and reply of create: 422 for a bad parent or host, 409 for a taken address, otherwise one new row and its snapshot |
| Backend.Database.UpdateDevice | backend/app/api/routes/devices.py:154-186 | new state and reply of patch: 404, 422 for a refused parent or host, 409 for a null or taken column, otherwise the edited row and its snapshot |
| Backend.Database.DeleteDevice | backend/app/api/routes/devices.py:623-638 | the row and its snapshot go, its children lose their parent, nothing else changes |
| Backend.Database.SimulateDeviceStatus | backend/app/api/routes/devices.py:190-231 | forced status, counter and edge event in place equal the specified step; published only on a change |
| Backend.Database.AckDevice | backend/app/api/routes/devices.py:491-504 | acknowledgement and snapshot of one device change, or 404 |
| Backend.Database.MuteDevice | backend/app/api/routes/devices.py:508-524 | mute flag and snapshot of one device change, or 404 |
| Backend.Database.MaintenanceDevice | backend/app/api/routes/devices.py:528-549 | a positive number of minutes sets the maintenance end, anything else clears it |
| Backend.Database.CommitCheck | backend/app/services/ping_scheduler.py:141-212 | phase 3 of a check in place: the row, its event, cache and channel writes; reports whether the device must be probed fast |
| Backend.Database.ApplyResult | backend/app/services/ping_scheduler.py:153-195 | the row part of phase 3, field by field: counter, service result, acknowledgement, status, edge event |
| Backend.Database.AlertTick | backend/app/services/alerts.py:74-130 | the loop over the rows, in any order, equals one turn of every device against the state at the start of the cycle |
| Backend.Database.AlertOne | backend/app/services/alerts.py:80-130 | one device's turn: recovery notice, suppression rules in order, or alarm |
| Backend.TurnIsIndependent | backend/app/services/alerts.py:104-108 | a device's turn is the same whichever devices had theirs before it |
| Backend.Database.WarmDevices | backend/app/services/state_cache.py:76-86 | warming replaces the whole snapshot by the rows given and makes it agree with the table |
| Backend.Database.UpdateAndPublish | backend/app/services/state_cache.py:129-135 | the snapshot entry is replaced and exactly one change is appended to the channel |
| Monitor.StepKeepsForest | backend/app/api/routes/devices.py:83-186 | every step, update and create included, keeps parents existing and chains free of cycles |
| Monitor.StepKeepsCache | backend/app/services/state_cache.py:76-134 | every step keeps the cached ids equal to the table's and status, service result, mute, maintenance, enabled, critical and address equal in each |
| Monitor.CheckKeepsCache | backend/app/services/ping_scheduler.py:188-212 | a check that skips the cache write leaves those snapshot fields right all the same |
| Monitor.SnapshotParentLags | backend/app/api/routes/devices.py:636-638 | the parent column is not among them: after a parent's deletion the child's snapshot still names it |
| Monitor.ParentsAgreeAfterIff | backend/app/api/routes/devices.py:623-638 | a step leaves right cached parents right if and only if it deletes no row that others hang under |
| Monitor.ParentsAgreeThroughoutIff | backend/app/api/routes/devices.py:623-638 | over every run they are right in every state if and only if no deletion orphans a row |
| Monitor.StepKeepsAddresses | backend/app/api/routes/devices.py:131-136 | no step makes two devices share an address |
| Monitor.CreateAnswers | backend/app/api/routes/devices.py:113-138 | create is done exactly for an existing or absent parent, a host that resolves and a free id and address; then row and snapshot hold the four given columns and nothing else has happened to the device; refused, nothing changes and the first reason is given |
| Monitor.UpdateAnswers | backend/app/api/routes/devices.py:154-186 | patch is done exactly for a known device, a parent that is not the device, missing or below it, a free address and no null where none may be; then each given column is stored, a null parent is cleared, every other column stays, and the snapshot shows the row |
| Monitor.UpdateRefusals | backend/app/api/routes/devices.py:83-109 | a refused patch names the first reason: itself, a missing parent, a parent below it, an unresolvable host, then a conflict |
| Monitor.EntryShowsRowIff | backend/app/services/ping_scheduler.py:188-212 | a snapshot entry that showed every cached column of its row goes on doing so unless a deletion took its parent, or a check without news moved the last-check time or dropped an acknowledgement |
| Monitor.RunKeepsInv | backend/app/services/ping_scheduler.py:105-212 | over every run on a clock that does not go back: forest, snapshot agreement, unique addresses, and every row consistent with its history |
| Monitor.ForestAndSnapshot | backend/app/api/routes/devices.py:83-186 | the same from an empty installation, for the forest, the snapshot and the addresses |
| History.StatusByStreak | backend/app/services/ping_scheduler.py:160-168 | with a threshold of at least 1: offline exactly from threshold trailing failures on, online exactly with none after a first outcome |
| History.LastEventIffOffline | backend/app/services/ping_scheduler.py:188-195 | the last event row is went_offline exactly while the status is offline |
| History.OutagesAreSeparated | backend/app/services/ping_scheduler.py:190-195 | between any two went_offline rows there is a came_online row |
| History.OutageStartIsEdge | backend/app/services/alerts.py:49-56 | the reference outage start is an edge: not offline just before it, offline at every outcome since |
| History.LogFindsOutageStart | backend/app/services/alerts.py:49-56 | the latest went_offline row is the start of the current outage |
| History.CheckedConsistent | backend/app/services/ping_scheduler.py:160-195 | a check keeps status, counter, events and notices equal to the functions of the extended history |
| History.ForcedConsistent | backend/app/api/routes/devices.py:202-216 | the simulate route does too, counting a forced outage as threshold failures |
| History.AlertedConsistent | backend/app/services/alerts.py:80-129 | an alert turn keeps notices alternating and each justified by what was known when it went out |
| Alarms.HistoryIsWhatWasHeard | backend/app/services/ping_scheduler.py:144-158 | a device's history grows by exactly what an applied check or simulate call reported |
| Alarms.CheckStores | backend/app/services/ping_scheduler.py:141-181 | a check leaves its time, its service verdict and, if answered, no acknowledgement; no setting, mark, notice or other row changes |
| Alarms.StatusIsHistory | backend/app/services/ping_scheduler.py:160-195 | in every reachable state status, capped counter, events, last-check time and outage start are those of the outcome history |
| Alarms.NoticesAreGrounded | backend/app/services/alerts.py:84-122 | in every reachable state alarms and recoveries alternate starting with an alarm, the notified mark says which came last, and each notice fits the outcomes known at its time: while offline it is an alarm that names the start of the outage then under way, at least the required time old; otherwise a recovery or a service alarm |
| Alarms.OneAlarmPerOutage | backend/app/services/alerts.py:99-122 | over any run during which a device stays in alarm at most one alarm goes out, and none if it was already announced |
| Alarms.SilentIffCyclesFindAlarm | backend/app/services/alerts.py:80-100 | over every run an announced device gets no further notice if and only if every alert cycle finds it in alarm or disabled; otherwise the first one takes the announcement back |
| Alarms.SecondOutageIsSilent | backend/app/services/alerts.py:84-100 | a run of a check, a simulate call and an alert cycle that opens a second outage and adds no notice |
| Alarms.RootCauseExists | backend/app/services/alerts.py:105-108 | from any offline device, following offline parents reaches one whose parent is not offline |
| Alarms.RootCauseAlerted | backend/app/services/alerts.py:105-122 | after a cycle that root cause is announced if and only if it already was or its own settings allow it |
| Alarms.NeverSwallowed | backend/app/services/alerts.py:80-129 | with a forest and eligible devices, every offline device has an announced root cause above it or is one |
| Alarms.ReachableNeverSwallowed | backend/app/api/routes/devices.py:86-88 | the same in every state the routes, checks and alert cycles can reach |
| Alarms.SuppressedStaysQuiet | backend/app/services/alerts.py:14-18 | muted, in maintenance, not critical where required, disabled, or below an offline parent: no alarm |
| Alarms.CycleNotifiesExactly | backend/app/services/alerts.py:80-122 | what a cycle does to a row consistent with its history: an unannounced device gets exactly one alarm if it is enabled, unmuted, past its maintenance end, critical where required, below no offline parent, and either failing its service check while not offline, at once, or offline for at least the required time by its history; an announced one gets one recovery if it is enabled and all is clear; any other row is unchanged |
| Alarms.ReachableNotifiesExactly | backend/app/services/alerts.py:80-122 | the same in every reachable state |
| Alarms.MutedStaysQuiet | backend/app/api/routes/devices.py:508-524 | from the mute call on, over any run that does not switch it back or delete the device, no alarm goes out |
| Alarms.MaintenanceStaysQuiet | backend/app/api/routes/devices.py:528-549 | from the maintenance call on, no cycle before the minutes are over sends an alarm |
| Alarms.RecoveryClearsAckIffChecked | backend/app/services/ping_scheduler.py:177-179 | an acknowledged device whose status comes back to online loses the acknowledgement if and only if a check saw it, not if the simulate route did it |
| Alarms.AckFollowsAlarmIff | backend/app/services/ping_scheduler.py:153-179 | for every step, an acknowledged device in alarm stays acknowledged exactly as long as it is in alarm if and only if: an answered check finds no service failure, an unanswered one leaves it offline or its service failing, a simulated recovery finds its service failing; or it is any other step |
| Alarms.AckHeldIffNoReply | backend/app/services/ping_scheduler.py:177-179 | over every run without a new acknowledgement it is held if and only if no applied check was answered |
| Alarms.ServiceAlarmLosesAck | backend/app/services/ping_scheduler.py:160-179 | an alarm that an answered check leaves on the service alone loses its acknowledgement |
| Alarms.MissedPingKeepsAck | backend/app/services/ping_scheduler.py:160-179 | a service alarm that ends in a check without a reply below the threshold keeps it |
| Alarms.ForcedRecoveryKeepsAck | backend/app/api/routes/devices.py:202-209 | an outage ended by the simulate route keeps it |
| Alarms.DeadCycleIsSilent | backend/app/api/routes/devices.py:86-88 | on a dependency cycle of offline devices no number of cycles ever announces anything: what the parent check prevents |
| Interleaving.InterleavedInv | backend/app/services/alerts.py:74-130 | from an empty installation on, with checks and routes between the load and the turns of every alert cycle: forest, snapshot, addresses, and every row and notice consistent with what was heard |
| Interleaving.LiveStartIsGrounded | backend/app/services/alerts.py:49-56 | the outage start is queried after the rows were loaded; an alarm it lets through is still about an outage under way at the load |
| Interleaving.UninterruptedCycle | backend/app/services/alerts.py:74-130 | a load and the turns of all rows, in any order and with nothing in between, are the atomic alert cycle |
| Interleaving.StaleAlarm | backend/app/services/alerts.py:77-122 | a device that answers between the load and its turn is announced while online |
| Interleaving.DeletedRowEndsCycle | backend/app/services/alerts.py:77-130 | if a device is deleted between the load and a turn that would write its row, the remaining turns of that cycle change nothing |
| Scheduler.RefreshSchedulesEnabled | backend/app/services/ping_scheduler.py:216-235 | after a refresh exactly the enabled devices are scheduled and only they can be volatile |
| Scheduler.NothingLeftDue | backend/app/services/ping_scheduler.py:238-255 | after a tick nothing is due at its start time any more |
| Scheduler.TickSchedulesEnabled | backend/app/services/ping_scheduler.py:216-255 | every tick keeps exactly the enabled devices scheduled and only them volatile |
| Scheduler.PingLoop.RefreshSchedule | backend/app/services/ping_scheduler.py:216-235 | both loops in place give the specified schedule: gone devices dropped, newcomers spread over the slow interval, the rest untouched |
| Scheduler.PingLoop.RunDue | backend/app/services/ping_scheduler.py:238-255 | all due devices are checked in the given order and each gets its own next time |
| Scheduler.PingLoop.CheckOne | backend/app/services/ping_scheduler.py:181-212 | a check commits and marks an unsettled device volatile; one whose commit raises only marks it; one that raises earlier changes nothing |
| Cadence.CreatedIsScheduledIff | backend/app/services/ping_scheduler.py:216-235 | the refresh after a create schedules the device exactly if it is enabled, at its own offset within one slow interval |
| Cadence.DeadlinesAreMarks | backend/app/services/ping_scheduler.py:181-186 | over every trace of ticks the volatile table holds exactly the last time each scheduled device was not, or had not been, online when a check ended, plus the window |
| Cadence.NextCheckExactly | backend/app/services/ping_scheduler.py:37-42 | a checked device is due again one fast interval after the tick if it was so marked less than a window before, and one slow interval after it otherwise |
| Cadence.AnsweringRelaxes | backend/app/services/ping_scheduler.py:181-186 | a device that has answered online for a window is next due a slow interval later |
| Cadence.SlowApart | backend/app/services/ping_scheduler.py:238-255 | from then on two checks of it are at least a slow interval apart |
| Detection.OthersKeepDown | backend/app/api/routes/devices.py:112-231 | steps other than reviving, checking, disabling or deleting a device leave its outage as far along as it was |
| Detection.RunKeepsDown | backend/app/api/routes/devices.py:112-231 | the same over any run of steps |
| Detection.DownTick | backend/app/services/ping_scheduler.py:160-186 | one tick seen from a dead device: not due and untouched, or one more failure and the fast interval |
| Detection.ProgressFrom | backend/app/services/ping_scheduler.py:216-255 | at every tick after the outage began, the failures counted so far bound the time of the next check |
| Detection.BoundedDetection | backend/app/services/ping_scheduler.py:37-42 | every tick from the deadline on ends with the dead device offline |
| Detection.DetectedInTime | backend/app/services/ping_scheduler.py:160-255 | it is offline for good within one slow gap, threshold - 1 fast gaps and the final tick, each gap the interval plus two tick bounds |
| Detection.RoutesDetectInTime | backend/app/services/ping_scheduler.py:141-255 | the same from an empty installation on, with any routes and alert cycles between the ticks that do not revive, disable or delete the device, as long as its checks commit |
| Detection.NoStarvation | backend/app/services/ping_scheduler.py:238-255 | an enabled device is checked again at most one tick bound after its chosen time |
| Latency.AlarmInTime | backend/app/services/alerts.py:80-122 | from an empty installation on: a device that stops answering and is not suppressed stands announced at most one gap between alert cycles after the detection bound and the alert delay; if it was not announced before, by a new alarm |
| LoginGuard.PruneIsFilter | backend/app/services/login_guard.py:30-36 | popping expired heads of an ordered deque equals filtering by age |
| LoginGuard.RunTracks | backend/app/services/login_guard.py:30-83 | over every run the deque is the failures since the last success minus expired ones, and alerts since then are at least a window apart |
| LoginGuard.BlockedIffWindowFull | backend/app/services/login_guard.py:39-43 | a client is turned away if and only if the failures since its last success that are at most a window old reach the limit |
| LoginGuard.AlertsExactly | backend/app/services/login_guard.py:46-77 | over every run, a recorded failure raises the alert if and only if, with it, the failures since the last success that are at most a window old reach the limit and no alert since that success is less than a window old |
| LoginGuard.DisabledNeverActs | backend/app/services/login_guard.py:26-57 | a guard without a limit or a window never blocks and never alerts |
| LoginGuard.SequentialLoginsBounded | backend/app/api/routes/auth.py:20-46 | with logins one after another no window holds more admitted failures than the limit |
| LoginGuard.FailureBoundedIff | backend/app/services/login_guard.py:39-57 | recording a failure keeps every window within the limit if and only if the client is not blocked at that moment |
| LoginGuard.BoundedThroughoutIff | backend/app/api/routes/auth.py:24-36 | over every run, however requests interleave, no window exceeds the limit if and only if no failure is recorded while its client is blocked |
| LoginGuard.OverlappingLoginsExceed | backend/app/api/routes/auth.py:24-36 | for every limit, one request more than the limit can pass its check before the first verdict, and together they exceed it |
| LoginGuard.Guard.Prune | backend/app/services/login_guard.py:30-36 | the popping loop leaves the specified deque, removes an emptied one and touches no other client |
| LoginGuard.Guard.IsBlocked | backend/app/services/login_guard.py:39-43 | the answer and the pruned deque are the specified ones; no stored deque is empty |
| LoginGuard.Guard.RegisterFailure | backend/app/services/login_guard.py:46-77 | the deque, the alert time and the record become the specified ones for this client only |
| LoginGuard.Guard.RegisterSuccess | backend/app/services/login_guard.py:80-83 | the client's deque and alert time are forgotten |
| LoginGuard.Guard.HandleLogin | backend/app/api/routes/auth.py:20-46 | 429 exactly when blocked, a token exactly for an admitted good password, with the guard steps in that order |
| StatusBus.CoalescingPreservesMeaning | backend/app/services/ws_manager.py:70-101 | for every interleaving of receives and flushes, frames plus pending give the dashboard the list every single change would have given |
| StatusBus.RowShowsLatest | frontend/src/pages/Dashboard.tsx:144-152 | a list fed every change shows in each row the status and time of the last change about its device, and keeps everything else |
| StatusBus.FramesAreProper | backend/app/services/ws_manager.py:73-81 | no frame is empty and none names a device twice |
| StatusBus.PendingIsSinceFlush | backend/app/services/ws_manager.py:96-101 | the window holds, for each device, the latest change received since the last flush and nothing older |
| StatusBus.FlushSendsWindow | backend/app/services/ws_manager.py:73-81 | a flush sends exactly that window as one frame and empties it, or sends nothing if nothing came |
| StatusBus.ToastIffNews | frontend/src/pages/Dashboard.tsx:132-142 | a frame shows a toast for a device exactly if it is listed, its last known status differs, and the new one is offline or online |
| StatusBus.OneToastPerDevice | frontend/src/pages/Dashboard.tsx:132-142 | and at most one for each device |
| StatusBus.ToastsOfTwoFrames | frontend/src/pages/Dashboard.tsx:132-142 | cutting any batch in two shows the same toasts in the same order |
| StatusBus.StepPublishes | backend/app/services/ping_scheduler.py:188-205 | every step publishes each status change it makes, once, and nothing else: what it publishes is a new status of a known device with its last-check time |
| StatusBus.PublishedChangesSuffice | backend/app/services/state_cache.py:129-135 | a list that was right stays right when every published change is applied to it |
| StatusBus.DashboardFollows | frontend/src/pages/Dashboard.tsx:144-152 | end to end: database steps, channel, coalescing and reducer leave the dashboard showing the database's statuses |
| StatusBus.Gateway.OnMessage | backend/app/services/ws_manager.py:96-101 | the pending dict keeps insertion order and the latest change per device |
| StatusBus.Gateway.FlushPending | backend/app/services/ws_manager.py:73-81 | a nonempty window becomes one frame and empties; an empty one sends nothing |
| StatusBus.Dashboard.HandleWs | frontend/src/pages/Dashboard.tsx:125-153 | list, last-status map and toasts after a frame are the specified ones |
| Counters.DeltaIsTraffic | backend/app/services/snmp_collector.py:506-513 | the modular delta is the traffic modulo the width, and the traffic itself if and only if less than one wrap went by |
| Counters.ReportedIffConsecutive | backend/app/services/snmp_collector.py:487-518 | a poll reports an interface exactly if the poll before had it too, in the same counter width, less than an hour earlier, and over just that time |
| Counters.RatesSinceLastWalk | backend/app/services/snmp_collector.py:487-518 | over any run of polls and peeks, a collection reports what went by since the last one of the same device and chain that came as far as its counters; failed ones change and report nothing |
| Counters.DeltasTelescopeModulo | backend/app/services/snmp_collector.py:499-518 | over any run of polls the deltas add up to last minus first, modulo the width |
| Counters.DeltasTelescope | backend/app/services/snmp_collector.py:499-518 | the deltas never add up to more than the traffic, and to exactly that if and only if less than one wrap went by between any two polls |
| Counters.MissingColumnInventsTraffic | backend/app/services/snmp_collector.py:512-512 | a sent column missing now but present before gives a wrap minus the old reading, which is right if and only if the counter stands at a whole wrap |
| Counters.ReturningColumnReportsCounter | backend/app/services/snmp_collector.py:512-518 | a column present now but missing before gives its whole counter |
| Counters.SentExactIff | backend/app/services/snmp_collector.py:510-518 | less than a wrap apart, the sent delta is the traffic if and only if both polls miss equally much of the counter |
| Counters.ChainsAreIndependent | backend/app/services/snmp_collector.py:157-164 | deleting every peek from a run changes no poll rate and no poll sample, and the other way round |
| Counters.SnmpCollector.RunCollection | backend/app/services/snmp_collector.py:487-518 | rates and the new sample on the chain chosen; the other chain is untouched |
| Ingest.RunConserves | backend/app/services/syslog_listener.py:85-195 | in every interleaving, failing commits and raising alerts included, accepted rows are the batches taken, the one in flight and the buffer, in order, once each; the buffer stays within 10000; drops are logged or still counted |
| Ingest.TurnedAwayIffFull | backend/app/services/syslog_listener.py:85-104 | over every run a datagram is turned away if and only if one found 10000 rows in the buffer; until then every row offered is accepted, in order |
| Ingest.DrainedReceiverLosesNothing | backend/app/services/syslog_listener.py:153-158 | a drained receiver has persisted exactly what it accepted if and only if no commit failed, whatever its alerts did |
| Ingest.DrainGetsThrough | backend/app/services/syslog_listener.py:153-195 | a receiver that wakes with rows stores all of them, in order, within one batch per 400, whatever arrives meanwhile; if nothing does, it then sleeps with its drops logged |
| Ingest.Listener.DatagramReceived | backend/app/services/snmp_trap_listener.py:130-139 | a full buffer counts a drop, an empty row is ignored, anything else is appended |
| Ingest.Listener.TakeBatch | backend/app/services/snmp_trap_listener.py:195-196 | at most 400 rows leave the head of the buffer; an empty buffer ends the drain and reports the drops |
| Ingest.Listener.FinishFlush | backend/app/services/syslog_listener.py:153-195 | a failed commit loses its batch and ends the drain; an alert that raises after the commit ends it too, with the batch stored |
| RateLimit.PruningIsTransparent | backend/app/services/snmp_trap_listener.py:154-183 | while the cap never evicts, the pruned table sends the same alerts as a table that remembers every host |
| RateLimit.AlertsAreSpaced | backend/app/services/snmp_trap_listener.py:180-183 | then one host's alerts are at least a cooldown apart |
| RateLimit.AlertsSpacedIff | backend/app/services/syslog_listener.py:118-141 | over every run, evictions or not, a host's alerts are a cooldown apart if and only if no host still cooling was evicted before a severe row of its own |
| RateLimit.RoundAlertsIff | backend/app/services/syslog_listener.py:128-148 | over every run, a batch alerts for a host exactly if it has a severe row of it and the host was sent no alert less than a cooldown ago, or was evicted since |
| RateLimit.FloodForgets | backend/app/services/syslog_listener.py:118-141 | a flood of 4097 hosts after which one of them alerts twice within its cooldown |
| RateLimit.TableBounded | backend/app/services/syslog_listener.py:118-125 | at most 4096 hosts after a prune and 4096 plus the batch after a batch |
| RateLimit.FloodBounded | backend/app/services/syslog_listener.py:153-159 | fed with the batches of a receiver the table never exceeds 4096 and 400 hosts |
| RateLimit.EvictionIsPruning | backend/app/services/syslog_listener.py:123-125 | dropping the head of the hosts sorted by time keeps exactly 4096, none older than an evicted one |
| RateLimit.Limiter.PruneAlerted | backend/app/services/syslog_listener.py:118-125 | the in-place prune leaves the live hosts, or the newest 4096 of them |
| RateLimit.Limiter.MaybeAlert | backend/app/services/syslog_listener.py:128-148 | after the prune, each severe enough row of a host outside its cooldown sends one alert; a negative threshold does nothing |
| Syslog.SeverityAlwaysNamed | backend/app/services/syslog_listener.py:55-77 | for every input the severity is in 0..7 and the facility in 0..23 |
| Syslog.ParseInvertsPrint | backend/app/services/syslog_listener.py:58-71 | a message printed per section 6 of RFC 5424, with nil structured data or one element, parses back to its facility, severity, app name and text |
| Syslog.ParseInverts3164 | backend/app/services/syslog_listener.py:48-75 | for any classes `\w` and `\d` that agree with ASCII and hold no whitespace, a classic stamped line, its tag with or without a bracketed number, parses back to its priority, tag and text |
| Syslog.DroppedIffNothingSaid | backend/app/services/syslog_listener.py:55-93 | for every input and all classes `\w` and `\d`: no row if and only if nothing is left behind the priority, or an RFC 5424 header or else a tag ends the text |
| Syslog.PrintedDroppedIff | backend/app/services/syslog_listener.py:68-93 | a message printed per section 6 of RFC 5424 leaves no row if and only if it has no MSG; otherwise its row has the sender, the printed classes and app name, and the first 8000 characters of the text |
| Syslog.ClassicDroppedIff | backend/app/services/syslog_listener.py:73-93 | for any such classes, a classic line leaves no row if and only if nothing follows its tag; otherwise its row has the sender, the classes of its priority, its tag and the first 8000 characters of its text |
| Syslog.TagAloneIsDropped | backend/app/services/syslog_listener.py:48-93 | for any such classes, a tag and its colon leave no row |
| Syslog.BarePriorityIsDropped | backend/app/services/syslog_listener.py:89-93 | a datagram that is only a priority leaves no row |
| Syslog.UnparsedIsKept | backend/app/services/syslog_listener.py:58-77 | text that fits neither header is kept verbatim, with the classes of a valid priority, or severity 6 and no facility |
| Text.TextPrefixIsTokenPrefix | lab/junos-emu/jcli.py:279-280 | for single-space statements, `l == prefix or l.startswith(prefix + " ")` is the prefix relation on tokens |
| Text.TextPrefixIff | lab/junos-emu/jcli.py:279-280 | for any text: `s == prefix or s.startswith(prefix + " ")` means the tokens start with the prefix's, spaced singly |
| Text.SplitJoin | lab/junos-emu/jcli.py:95-96 | splitting on whitespace undoes joining tokens with spaces |
| ConfigTree.PathsArePrefixes | lab/junos-emu/jcli.py:89-97 | the paths of the trie are exactly the token prefixes of the statements |
| ConfigTree.InsertPaths | lab/junos-emu/jcli.py:94-96 | one statement adds exactly its prefixes |
| ConfigTree.BuildFlatten | lab/junos-emu/jcli.py:89-97 | flattening any dict of dicts to set statements and building again gives the same dict, child order included |
| ConfigTree.SetLinesRebuild | lab/junos-emu/jcli.py:89-97 | the same as text: the set lines of a tree's leaves, split and inserted again, rebuild the tree |
| ConfigTree.ParseRender | lab/junos-emu/jcli.py:100-110 | a reader of the brace layout recovers the ordered tree from its lines at any depth |
| ConfigTree.ShowReadsBack | lab/junos-emu/jcli.py:113-120 | so does the whole joined text, for keys without line breaks |
| ConfigTree.ShowIsInjective | lab/junos-emu/jcli.py:113-120 | two configurations that show the same are the same |
| ConfigDict.Dict.SetDefaults | lab/junos-emu/jcli.py:94-96 | walking setdefault down nested dicts in place inserts the path into the tree they stand for and nothing else |
| ConfigDict.BuildInPlace | lab/junos-emu/jcli.py:89-97 | the in-place builder yields the specified trie and skips lines that are not set lines |
| ConfigSession.DeleteRemovesPath | lab/junos-emu/jcli.py:278-281 | where statements are spaced singly through p: after delete p the path p is gone, a path stays exactly if a statement outside p needs it, and the rest keep their order |
| ConfigSession.DeletePathGoneIff | lab/junos-emu/jcli.py:278-281 | after delete p the path p is gone if and only if every statement at or below it is spaced singly through it |
| ConfigSession.NormalIsSpaced | lab/junos-emu/jcli.py:274-281 | statements in normal form are spaced singly through every path |
| ConfigSession.DeleteOnNormalGoneIff | lab/junos-emu/jcli.py:278-281 | on normal statements the path of whatever was typed is gone if and only if it was typed with single spaces or was not there |
| ConfigSession.TypingDelete | lab/junos-emu/jcli.py:278-281 | typing delete, however spaced, changes only the candidate, and takes the path away if and only if every statement at or below it is spelled as typed |
| ConfigSession.TypingPlainDelete | lab/junos-emu/jcli.py:278-281 | typed plainly it removes exactly the statements at or below p |
| ConfigSession.DeleteMissesDoubleSpace | lab/junos-emu/jcli.py:278-281 | a two-token statement typed with two spaces survives its own delete |
| ConfigSession.DoubleSpaceDeletesNothing | lab/junos-emu/jcli.py:278-281 | a delete typed with two spaces leaves a normal statement in place |
| ConfigSession.CommitReadsBack | lab/junos-emu/jcli.py:74-85 | a commit reads back as written if and only if it is not empty and no line holds a carriage return; an empty one becomes the default |
| ConfigSession.ConfigureLoads | lab/junos-emu/jcli.py:247-253 | each of the four spellings of `configure` opens exactly what the file holds and changes nothing else |
| ConfigSession.ModesFollow | lab/junos-emu/jcli.py:242-292 | for every line: which lines enter, leave and end a mode, that only a commit changes what is committed and the file, and only set, delete, rollback and configure the candidate |
| ConfigSession.ReenteredCommit | lab/junos-emu/jcli.py:247-292 | commit, exit and configure give back a nonempty candidate without carriage returns, statement by statement, in order |
| ConfigSession.StatementIsKept | lab/junos-emu/jcli.py:247-292 | configure, a set line, commit, exit and configure end with the statements of the file and behind them the new one, unless it was among them |
| ConfigSession.ConfigureGivesCommitted | lab/junos-emu/jcli.py:74-85 | over every session of lines without carriage returns, configure opens the statements of the last commit, or the default if there are none |
| ConfigSession.ReturnSplitsStatement | lab/junos-emu/jcli.py:74-85 | a statement typed around a carriage return is read back as two |
| ConfigSession.SessionKeepsInv | lab/junos-emu/jcli.py:230-293 | whatever is typed, as long as no statement holds a carriage return, candidate and committed statements stay free of duplicates and the file reads back soundly |
| ConfigSession.TypedReturnDuplicates | lab/junos-emu/jcli.py:274-292 | one such statement, committed and rolled back, is in the candidate twice |
| ConfigSession.SessionKeepsNormal | lab/junos-emu/jcli.py:274-292 | statements typed in normal form stay so through set, delete, rollback and commit |
| ConfigSession.ShownConfigurationReadsBack | lab/junos-emu/jcli.py:113-120 | what `show configuration args` prints determines the trie of the lines it keeps: of exactly the statements at or below args where those are spaced singly through it |
| ConfigSession.Cli.HandleLine | lab/junos-emu/jcli.py:238-293 | one turn of the prompt loop in place equals the specified session step |

## Left out

- Sockets, ICMP, SSH, BER decoding, HTTP and TCP service checks: their results are inputs.
- Races inside one request: a validation and its commit, or a probe's phase 3 and a simulate call, are one step each. The run invariants take checks, routes and alert turns in any order; the timing theorems (Detection, Latency) take a tick of the ping loop and an alert cycle whole, with routes between them.
- A commit that fails after a notification went out, and exceptions that abort a whole tick or a device-map refresh.
- Rows of other tables after a device is deleted: its event, probe and notice rows are modelled with the device.
- Degraded-link alerts, notification channels, audit rows and logging: an alert is an appended notice.
- Device columns that no modelled rule reads (names, location, SSH and SNMP settings, service detail).
- Division of octet deltas by elapsed time: Counters.SnmpCollector.RunCollection returns the delta and the interval.
- Python's unordered choices: the iteration order of a set or a dict being pruned is left open.
- The members of Python's `\w` and `\d` beyond ASCII: the syslog parser takes them as parameters; whitespace is Python's full set.
- The walk down nested dicts in ConfigDict.Dict.SetDefaults is a recursion instead of a loop over a cursor; aliasing and update in place are modelled.
- Operational show output, `display set`, pipes and the one-command form of the emulator: fixed text or the lines as they are.
- Password hashing, tokens, encryption, rendering, maps, charts, sound, the SLA sums, discovery and the external watchdog.
- Sorting of the snapshot by creation time when it is read.
- StatusBus.DashboardFollows: claims statuses only; other columns reach a dashboard with its next reload.
