# Lockhaven: a verified model of its protocols and text formats

Lockhaven's Hub, worker and agents share a handful of small mechanisms whose correctness is spread
over several functions and over time. This project states what those mechanisms promise and proves
it of a model that takes the same branches, in the same order, with the same constants.

| module | what it models |
|---|---|
| `DeviceCommands` | commands, run receipts and the statements that change them, as interleaved steps |
| `CommandTables` | the same statements as the check-in, the enqueue and the after-hours loops issue them |
| `AfterHours` | when a worker pass starts a run, over histories in which passes may die; device selection; abandoning runs |
| `AlertProtocol` | alert rows and notices, with every raise and resolve cut between its read and its write |
| `AlertTable` | raising, resolving, promoting and escalating as they run uninterrupted |
| `AlertChannels` | the fan-out of a notice over channels, and that each channel sees the protocol's one |
| `Calendar`, `ZonedTime`, `MaintenanceWindow` | civil dates, wall clock to instant, weekly windows |
| `TokenBucket`, `TokenBucketScript` | the rate limiter and its Redis twin with expiring keys |
| `Csv`, `AssetLabels`, `Text`, `Options` | the CSV scanner and printer, the label table written with them, string helpers |
| `TagRetarget` | the bulk rewrite of tracking-tag prefixes and its application row by row |
| `AssetLifecycle` | ISO dates, adding months, retirement states |
| `AssetLink` | linking devices to assets one at a time and in a batch |
| `FlowLog`, `FlowIngest` | the tailing log cursor with its carried rest, truncation included; the ingest job |
| `PeerReconcile` | bringing the WireGuard interface in line with the database |
| `ModuleReports`, `ModuleObservations` | accepting module reports and storing them |
| `Access` | the authorizer and the actor an API key stands for |

Tables are sequences or maps, a transaction or a single guarded statement is one atomic step, and
what the code does between two statements is two steps. Objects and loops of the source are classes
and loops here, each proved equal to a function; the theorems are about those functions.

## Where the code does less than it says

Each of these has a lemma with a failing case and one with the exact condition.

- "Fires exactly once per close" (packages/shared/src/after-hours.ts:152): a pass that dies after
  inserting its run leaves the old reading stored, and eight hours later the same close fires again
  (`AfterHours.DyingPassCanFireTwice`, `AfterHours.OpenBetweenFiresIff`).
- One open command of a kind per device, restarts of different services aside
  (`DeviceCommands.OnlyServicesRepeat`): the guard is read before the insert and no index backs it,
  so two overlapping enqueues both insert (`DeviceCommands.OverlappingEnqueuesCollide`,
  `DeviceCommands.UniqueOpenIff`).
- A cancel that dies between taking a run's commands back and closing the run leaves the run queued,
  and no later cancel closes it until a new receipt is stored for the run
  (`DeviceCommands.NoLaterCancelCloses`, `DeviceCommands.QueuedRunClosesIff`).
- The system's resolve statement does not look at the status again, so overlapping resolves announce
  one alert twice (`AlertProtocol.ResolvedIsAnnouncedTwice`, `AlertProtocol.NoticesInOrderIff`).
- A raise of an open alert "records the repeat" (packages/api-contract/src/alerts.ts:72): it writes the
  count it read plus one, so one that is overtaken sets the count back by all repeats in between
  (`AlertProtocol.CountIsSetBack`, `AlertProtocol.RepeatsCountedIff`).
- A weekly window is looked for by date: where the clock goes back over midnight the occurrence that
  has begun can be missed (`MaintenanceWindow.BackOverMidnightIsMissed`,
  `MaintenanceWindow.WeeklyInAnyZoneIff`).
- A key tied to an organization stays inside it, but for the audit trails of single devices: with a
  site role there its owner's key opens the trail of any device (`Access.OtherTrailIsReached`,
  `Access.ScopedKeyIsConfined`).
- Rotation by truncation is meant to reset the cursor (apps/worker/src/flows.ts:64): a pass that sees
  the file empty keeps the old cursor, and a log grown back past it loses its beginning
  (`FlowLog.TruncatedTextIsSkipped`, `FlowLog.TruncatedLogRereadIff`).
- A reconcile pass gives every peer its addresses only when no two wanted peers claim the same one
  (`PeerReconcile.SharedNetworkGoesToTheLast`, `PeerReconcile.PassIsExactIff`).
- A pass drops the stored state of a revoked identity, unless that field cannot be read: it is never
  loaded, so never deleted (`PeerReconcile.UnreadableStateStays`, `PeerReconcile.StatesAfter`).
- `addMonthsToIsoDate` past the year 9999 returns text that no longer reads as a date
  (`AssetLifecycle.TheYearTenThousandIsUnreadable`, `AssetLifecycle.AddMonthsLands`).
- A refused call leaves no trace unless the clock had stepped back while refill was still due
  (`TokenBucket.SteppedBackRefusalBuysToken`, `TokenBucket.RefusalLeavesNoTrace`).
- Keys "expire once a full refill has elapsed" (apps/web/lib/rate-limit.ts:86): without refill they
  expire all the same, and a budget starts over (`TokenBucketScript.ForgottenBudgetStartsOver`,
  `TokenBucketScript.ForgettingIsHarmlessIff`).
- A CSV matrix whose first cell opens with a byte-order mark, or that has a row without cells, does
  not survive printing and scanning (`Csv.MarkAndEmptyRowAreLost`, `Csv.RoundTripIff`).

## Model

| member | source | states |
|---|---|---|
| DeviceCommands.HandedOverIff | packages/shared/src/fleet.ts:369-429 | a check-in hands a command over exactly when it is pending for that device, not reported on and encodable |
| DeviceCommands.CheckInRecords | packages/shared/src/fleet.ts:396-429 | an open command of the device ends with the status of its last report; without one it is sent if it waits and encodes, and every other row stays as it is |
| DeviceCommands.PayloadMembers | apps/web/lib/agent-fleet.ts:85-105 | the ids answered are exactly those of the rows handed over |
| DeviceCommands.PayloadDistinct | apps/web/lib/agent-fleet.ts:85-105 | no check-in answers one command twice |
| DeviceCommands.StepMovesRows | apps/web/lib/agent-fleet.ts:39-105 | no step brings a row back to pending, changes a settled row, or cancels anything but a pending one |
| DeviceCommands.SettledForGood | packages/shared/src/fleet.ts:401-429 | a command once settled or cancelled stays as it is through any run of steps |
| DeviceCommands.DeliveredAtMostOnce | apps/web/lib/agent-fleet.ts:39-105 | over every interleaving each command is handed over at most once, and one cancelled at any point is never handed over |
| DeviceCommands.CancelledDeviceGotNothing | packages/shared/src/after-hours.ts:210-230 | a device whose receipt says cancelled before pickup had every command of the run cancelled and was handed none |
| DeviceCommands.CancelDoes | packages/api-contract/src/after-hours-engine.ts:323-397 | a cancel takes back exactly the listed commands still pending; it closes a run still active if that was waiting or something was taken, and shows a device as cancelled exactly when every command of it was pending |
| DeviceCommands.EnqueueDoes | packages/api-contract/src/playbook-engine.ts:61-87 | an enqueue waits when nothing is in its way, and then inserts what it read, whatever has come since |
| DeviceCommands.ReceiptStepsDo | packages/api-contract/src/after-hours-engine.ts:342-363 | a stored receipt is there as given; a cancel remembers the run as read and takes back exactly its pending commands |
| DeviceCommands.QueuedRunClosesIff | packages/api-contract/src/after-hours-engine.ts:342-387 | a cancel closes a queued run exactly when it finds one of its commands still pending |
| DeviceCommands.InterruptedCancelIsNotRepaired | packages/api-contract/src/after-hours-engine.ts:342-363 | after a cancel that dies between its two statements the next cancel leaves the run queued |
| DeviceCommands.NoLaterCancelCloses | packages/api-contract/src/after-hours-engine.ts:342-387 | so does everything after it, over any run of steps that stores no new receipt for the run, when no other cancel of it had taken anything back |
| DeviceCommands.StepKeepsUniqueIff | packages/api-contract/src/playbook-engine.ts:61-87 | a step keeps one open command of a kind per device exactly when an insert still finds its guard true |
| DeviceCommands.UniqueOpenIff | packages/api-contract/src/playbook-engine.ts:50-90 | over a whole run the rule holds in every state exactly when every insert's guard still held |
| DeviceCommands.OverlappingEnqueuesCollide | packages/api-contract/src/playbook-engine.ts:61-87 | two enqueues that read before either inserts leave two open reboots |
| DeviceCommands.SerializedEnqueuesAreUnique | packages/api-contract/src/playbook-engine.ts:50-90 | enqueues that take turns per device and kind never break the rule |
| CommandTables.Tables.SettleDeviceCommands | apps/web/lib/agent-fleet.ts:29-106 | the row-by-row loop and the final bulk update amount to one atomic check-in, return its payload, and record on every row what was last reported |
| CommandTables.PayloadFromOpenRows | apps/web/lib/agent-fleet.ts:39-87 | looking only at the device's open rows gives the same payload as looking at all |
| CommandTables.Tables.EnqueueAllowlistedCommand | packages/api-contract/src/playbook-engine.ts:50-90 | inserts one pending command, or nothing when the same action is open or not allowed |
| CommandTables.Tables.EnqueueEach | packages/api-contract/src/after-hours-engine.ts:165-175 | the step loop for one device |
| CommandTables.Tables.QueueAfterHoursRunCommands | packages/api-contract/src/after-hours-engine.ts:137-205 | every eligible device ends with each step open, no existing row changes, the receipt lists what was queued, the count and status follow from it; a table with one open command of a kind stays so |
| CommandTables.QueueingCovers | packages/api-contract/src/after-hours-engine.ts:163-195 | on any table, queueing changes no existing row, lists only commands now waiting for that device, and covers every step on every device |
| CommandTables.QueueingKeepsTidy | packages/api-contract/src/after-hours-engine.ts:163-195 | queueing opens no second command of a kind where there was none |
| CommandTables.EnqueueInserts | packages/api-contract/src/playbook-engine.ts:50-90 | a new waiting row with a new id is added exactly when the action is allowed and the device has none of its kind waiting or sent |
| CommandTables.ReceiptListsInserted | packages/api-contract/src/after-hours-engine.ts:163-195 | a receipt lists every command inserted, in order, and no other |
| CommandTables.Tables.CancelAfterHoursRun | packages/api-contract/src/after-hours-engine.ts:323-397 | does what a cancel does to the run as read, and reports how many commands it took back, or none when nothing was left |
| AfterHours.SanitizeAfterHoursSteps | packages/shared/src/after-hours.ts:116-130 | the loop with its early exit computes the specified list |
| AfterHours.SanitizedSteps | packages/shared/src/after-hours.ts:116-130 | exactly the allowed actions named in the list survive, once each: the limit of three never drops one |
| AfterHours.StepsInOrder | packages/shared/src/after-hours.ts:116-130 | steps stand in the order in which the list first names them |
| AfterHours.DecisionIs | packages/shared/src/after-hours.ts:157-191 | when a site fires, and the first reason that keeps it idle otherwise |
| AfterHours.Worker.EvaluateAfterHoursSites | packages/api-contract/src/after-hours-engine.ts:465-537 | a pass, finished or cut short after any site, leaves the stored readings and run rows the history model says |
| AfterHours.FiringLeavesRun | packages/api-contract/src/after-hours-engine.ts:243-264 | a pass that starts a run leaves its row even if the pass dies |
| AfterHours.FiresEightHoursApart | packages/shared/src/after-hours.ts:182-188 | two runs of a site start at least eight hours apart on any clock, whichever passes die |
| AfterHours.FiresOnlyOnClose | packages/shared/src/after-hours.ts:173-181 | a run starts only on a closed reading directly after an open reading of the last finished pass |
| AfterHours.StoredReadingOrigin | packages/api-contract/src/after-hours-engine.ts:534-535 | a stored reading was taken by the last pass that finished |
| AfterHours.OpenBetweenFiresIff | packages/shared/src/after-hours.ts:149-191 | between two runs a finished pass saw the site open exactly when some pass from the first run on finished |
| AfterHours.EveryCloseFires | packages/shared/src/after-hours.ts:157-191 | a site fires exactly when it opted in, reads closed after open, has an allowed step and no run of it is younger than eight hours |
| AfterHours.PassLeaves | packages/api-contract/src/after-hours-engine.ts:465-537 | a pass leaves rows of exactly the sites that fired before the place it stopped, and new readings only if it finished |
| AfterHours.DyingPassCanFireTwice | packages/api-contract/src/after-hours-engine.ts:515-536 | three passes after which one close has two runs |
| AfterHours.SelectAfterHoursDevices | packages/shared/src/after-hours.ts:249-287 | every device is either reachable and eligible or skipped with the first reason that applies, in the given order |
| AfterHours.ReachableIff | packages/shared/src/after-hours.ts:238-287 | a device gets commands exactly when not archived, revoked or waiting to enrol, and seen within three minutes in either way |
| AfterHours.SkippedWhy | packages/shared/src/after-hours.ts:249-287 | the reason given is the first that applies, and one applies exactly when the device is not reachable |
| AfterHours.StaleRunsCancelled | packages/api-contract/src/after-hours-engine.ts:323-441 | cancelling stale runs one after the other takes back their pending commands as if in one go, closes stale runs awaiting approval, touches no other run |
| AfterHours.StaleRunBecomes | packages/api-contract/src/after-hours-engine.ts:323-441 | each stale run is closed exactly when still active and awaiting approval or with a command taken back, and its receipt shows what was taken |
| AfterHours.TakenIff | packages/api-contract/src/after-hours-engine.ts:342-351 | what is taken back for a run is its pending commands that no stale run before it shares |
| AfterHours.CancelStaleActiveRuns | packages/api-contract/src/after-hours-engine.ts:404-441 | the loop does exactly that for the runs of sites that switched runs off or reopened, and counts the runs closed |
| AfterHours.CancelInTurn | packages/shared/src/after-hours.ts:199-208 | each run in turn is put through one cancel exactly when its site switched runs off or is open again, and counts if that closed it |
| AlertProtocol.StepKeepsUnique | packages/db/src/schema.ts:1117-1119 | no step makes a second unresolved row of a key |
| AlertProtocol.UnresolvedIsUnique | packages/api-contract/src/alerts.ts:111-301 | over every interleaving a key has at most one unresolved row and no row's status moves back |
| AlertProtocol.StepKeepsConsistent | packages/shared/src/alert-lifecycle.ts:443-459 | a row's state always bounds the notices sent for it |
| AlertProtocol.NothingSentWhileSuppressed | packages/shared/src/alert-lifecycle.ts:439-452 | a held alert has sent nothing, over every interleaving |
| AlertProtocol.StepKeepsOrderIff | packages/api-contract/src/alerts.ts:247-301 | a step keeps every row's notices a subsequence of opened, escalated, resolved exactly when it is not a late resolve |
| AlertProtocol.NoticesInOrderIff | packages/api-contract/src/alerts.ts:247-301 | over a whole run from an empty table the same, for every row |
| AlertProtocol.NoticesInOrderAtOnce | packages/api-contract/src/alerts.ts:247-301 | with resolves done at once, each row's notices are a subsequence of opened, escalated, resolved however raises, promotions, escalations and user actions interleave |
| AlertProtocol.OverlappingResolvesAnnounceTwice | packages/api-contract/src/alerts.ts:252-297 | two overlapping resolves of an open alert both announce it, in any state |
| AlertProtocol.RaiseInserts | packages/api-contract/src/alerts.ts:187-240 | a raise that found no unresolved row adds one, held and silent inside a window and open and announced outside, unless another has come up since |
| AlertProtocol.RaiseRepeats | packages/api-contract/src/alerts.ts:127-185 | one that found a row releases it when it was held and nothing holds it now, else counts an event or touches a condition older than a minute |
| AlertProtocol.WorkerDoes | apps/worker/src/escalate.ts:40-68 | what the guarded promotion and escalation do to one row and its notices |
| AlertProtocol.UserDoes | packages/api-contract/src/routers/alerts.ts:347-500 | only an open alert is acknowledged, only an unresolved one resolved and announced |
| AlertProtocol.NotifiedIff | packages/shared/src/alert-lifecycle.ts:439-459 | a notice goes out for a resolved row, or for an open one outside its snooze |
| AlertProtocol.ResolvedIsAnnouncedTwice | packages/api-contract/src/alerts.ts:252-297 | the same run from an empty table, notice by notice |
| AlertProtocol.RepeatsCountedIff | packages/api-contract/src/alerts.ts:111-183 | over every run from an empty table an alert's count is at most one plus the repeats raised on it, and equal exactly when no raise writes over a count that has moved since it was read |
| AlertProtocol.OvertakenRaisesAreForgotten | packages/api-contract/src/alerts.ts:111-183 | in any state, whatever number of repeats run between a raise's read and its write, the alert has counted one more |
| AlertProtocol.CountIsSetBack | packages/api-contract/src/alerts.ts:111-183 | a run from an empty table that sets the count back to two from any number |
| AlertTable.RaisedOnce | packages/api-contract/src/alerts.ts:80-244 | a raise outside windows leaves one released row; repeating it writes no row and sends nothing more, but counts on that row |
| AlertTable.RaisedNew | packages/api-contract/src/alerts.ts:187-240 | uninterrupted, a raise without an unresolved row adds exactly one, suppressed exactly inside a window, counted once, seen now, announced exactly outside a window; in closed hours nothing happens |
| AlertTable.RaisedAgain | packages/api-contract/src/alerts.ts:123-185 | what a raise leaves in each field of the row it finds, and of no other; a held row is released and announced only outside windows and closed hours |
| AlertTable.ResolvedOnce | packages/api-contract/src/alerts.ts:247-301 | after a resolve the key has no unresolved row, and resolving again changes nothing |
| AlertTable.ResolvedRow | packages/api-contract/src/alerts.ts:247-301 | a resolve closes the key's unresolved row, announces it unless it was held, and touches nothing else |
| AlertTable.AlertStore.RaiseAlert | packages/api-contract/src/alerts.ts:80-244 | uninterrupted, the branches amount to read then write, occurrences and last sighting included, and return the row standing for the key |
| AlertTable.AlertStore.ResolveAlert | packages/api-contract/src/alerts.ts:247-301 | uninterrupted, read then write, returning the row resolved |
| AlertChannels.DeliveryQueue.EnqueueAlertNotifications | packages/api-contract/src/alert-deliveries.ts:97-177 | the gates, then one delivery for each matching channel |
| AlertChannels.SeenOfMatching | packages/notifications/src/filters.ts:35-46 | a channel has one delivery exactly when it is enabled, of the organization, and its filter lets the alert through |
| AlertChannels.WantsIff | packages/notifications/src/filters.ts:21-46 | which alerts a channel wants: of its organization, severe enough, of its kinds and sites, or any if it lists none |
| AlertChannels.EveryChannelIsNotified | packages/api-contract/src/alert-deliveries.ts:97-177 | to each channel by itself the fan-out is the one notice, or none, that the alert protocol follows |
| AlertTable.PromoteEachRow | apps/worker/src/escalate.ts:23-71 | the loop opens and announces exactly the suppressed rows not held, each once |
| AlertTable.AlertStore.PromoteSuppressedAlerts | apps/worker/src/escalate.ts:23-71 | every suppressed alert no longer held is opened, announced unless snoozed, and counted; no other row changes |
| AlertTable.EscalateEachRow | apps/worker/src/escalate.ts:121-160 | the loop marks and announces exactly the selected rows whose guard still holds |
| AlertTable.AlertStore.EscalateOpenAlerts | apps/worker/src/escalate.ts:93-161 | exactly the open alerts past their policy's minutes, outside windows, closed hours and snooze, not escalated yet, are marked, announced and counted; afterwards none is due |
| Calendar.CivilRoundTrip | packages/shared/src/alert-lifecycle.ts:156-168 | turning a valid date into a day number and back gives the date |
| Calendar.FromUtcParts | packages/shared/src/alert-lifecycle.ts:156-168 | reading an instant's UTC fields and rebuilding it gives the instant's whole second |
| ZonedTime.OffsetThroughParts | packages/shared/src/alert-lifecycle.ts:128-168 | the offset recovered from a zone's wall fields is the zone's offset, at whole seconds |
| ZonedTime.TwoGuesses | packages/shared/src/alert-lifecycle.ts:170-189 | the two guesses amount to the offset at the first guess, for any zone |
| ZonedTime.WallTimeIsHit | packages/shared/src/alert-lifecycle.ts:170-189 | around one offset change the result shows the asked wall time exactly when that wall time exists |
| ZonedTime.WallTimeInGap | packages/shared/src/alert-lifecycle.ts:170-189 | a wall time in the gap is moved out of it by exactly its size, and in which direction |
| ZonedTime.WallTimeTwice | packages/shared/src/alert-lifecycle.ts:170-189 | of a repeated wall time's two instants, which one is chosen |
| MaintenanceWindow.AddCalendarDaysExact | packages/shared/src/alert-lifecycle.ts:191-212 | moving fields by calendar days moves the instant by whole days |
| MaintenanceWindow.LatestOccurrence | packages/shared/src/alert-lifecycle.ts:235-262 | the weekday-delta search finds the last occurrence that started by now |
| MaintenanceWindow.IsMaintenanceWindowActive | packages/shared/src/alert-lifecycle.ts:214-272 | the step-by-step search decides the activity predicate; an invalid span is never active, one without repetition or without a known zone is active from its start up to its end, and none before its start |
| MaintenanceWindow.WeeklyActiveIff | packages/shared/src/alert-lifecycle.ts:214-272 | a weekly window is active exactly inside one of its seven-day repeats, from its own start on |
| MaintenanceWindow.WeeklyInAnyZoneIff | packages/shared/src/alert-lifecycle.ts:214-272 | in any zone a weekly window is active exactly inside its weeks' occurrences, unless one runs while the clock shows an earlier date than it was asked for, or the week before the first has the window open still |
| MaintenanceWindow.WeeklyAwayFromChanges | packages/shared/src/alert-lifecycle.ts:214-272 | so always, five days away from an offset change |
| MaintenanceWindow.OccurrenceAtAskedTime | packages/shared/src/alert-lifecycle.ts:170-189 | around one change an occurrence starts at the wall time asked for exactly when that time exists |
| MaintenanceWindow.BackOverMidnightIsMissed | packages/shared/src/alert-lifecycle.ts:240-262 | a zone and a window whose begun occurrence the search misses |
| TokenBucket.RefilledInBounds | apps/web/lib/rate-limit.ts:32-41 | refilled tokens stay within nought and the capacity, on any clock |
| TokenBucket.Conservation | apps/web/lib/rate-limit.ts:26-65 | cost granted plus tokens left never exceeds capacity plus refill |
| TokenBucket.LongRunBound | apps/web/lib/rate-limit.ts:26-65 | over any stretch of any run the cost granted is at most capacity plus rate times forward clock movement |
| TokenBucket.SteadyClock | apps/web/lib/rate-limit.ts:36-41 | on a clock that only moves forward that movement is the elapsed time |
| TokenBucket.RetryAfterIsExact | apps/web/lib/rate-limit.ts:48-60 | a whole-millisecond wait succeeds exactly from the reported one on, and never for a cost above capacity |
| TokenBucket.WaitingTheHeaderSucceeds | apps/web/lib/rate-limit.ts:67-82 | waiting the header's whole seconds succeeds |
| TokenBucket.HeaderIsLeast | apps/web/lib/rate-limit.ts:67-84 | the header's seconds are the least that succeed, and there is a header exactly on a refusal with refill |
| TokenBucket.HeadersAre | apps/web/lib/rate-limit.ts:67-84 | the other headers: the capacity, at least one, and what remains, never below nought |
| TokenBucket.TakeTokenIs | apps/web/lib/rate-limit.ts:26-65 | the whole decision and the whole new state, from the numbers at hand |
| TokenBucket.RemainingIsExactIff | apps/web/lib/rate-limit.ts:38-64 | `remaining` is how many more single-token calls get through at that instant exactly when the call was allowed or less than one token was left |
| TokenBucket.RefusalLeavesNoTrace | apps/web/lib/rate-limit.ts:48-64 | a refusal changes no later balance exactly when the clock had not stepped back, or nothing is refilled, or the bucket is full |
| TokenBucket.SteppedBackRefusalBuysToken | apps/web/lib/rate-limit.ts:36-64 | a refusal at a clock two seconds back lets a later call through that would have been refused |
| TokenBucket.RefusedCallsLeaveNoTrace | apps/web/lib/rate-limit.ts:26-65 | on a clock that never steps back, leaving any refused calls out of a run changes no other decision and no later balance |
| TokenBucketScript.RedisBucket.Eval | apps/web/lib/rate-limit.ts:92-130 | one evaluation replies and stores what the script's function says, with its expiry |
| TokenBucketScript.SameStep | apps/web/lib/rate-limit.ts:92-130 | on the same stored state the script decides and stores what the pure step does |
| TokenBucketScript.ScriptIs | apps/web/lib/rate-limit.ts:92-130 | the script's whole reply, stored state and time to live, from the numbers at hand |
| TokenBucketScript.ExpiredMeansFull | apps/web/lib/rate-limit.ts:124-127 | a key past its expiry would have refilled to capacity |
| TokenBucketScript.ScriptRefinesBucket | apps/web/lib/rate-limit.ts:92-130 | over any run the script with expiring keys makes the decisions of the bucket that never forgets |
| TokenBucketScript.OneTokenDriftIff | apps/web/lib/rate-limit.ts:124-128 | with one token of capacity, a bound on the two clocks' drift keeps every run in step exactly when it is at most a second |
| TokenBucketScript.ForgettingIsHarmlessIff | apps/web/lib/rate-limit.ts:124-128 | from any stored state a key that may have expired can be gone without changing a reply or a stored state exactly when tokens are refilled or it was full |
| TokenBucketScript.ForgottenBudgetStartsOver | apps/web/lib/rate-limit.ts:124-128 | capacity two, no refill, one token left: once forgotten, two more calls pass where one should |
| Csv.ScanRecords | packages/shared/src/assets.ts:1288-1345 | the character loop with its look-ahead computes the scanner's function, including the unfinished-quote error |
| Csv.JoinedLines | packages/shared/src/assets.ts:995-1010 | joining lines and ending the last one is a line per row |
| Csv.UnfinishedIff | packages/shared/src/assets.ts:1288-1345 | the one error, an unfinished quoted field, is an odd number of quotes |
| Csv.PrintThenScan | packages/shared/src/assets.ts:989-1010 | what any cell matrix becomes after printing and scanning |
| Csv.RoundTripIff | packages/shared/src/assets.ts:1288-1345 | a matrix survives, quotes, commas and line breaks included, exactly when every row has a cell and it does not open with a byte-order mark |
| Csv.MarkAndEmptyRowAreLost | packages/shared/src/assets.ts:1288-1345 | the mark is dropped and a row without cells comes back with one |
| AssetLabels.WriteThenRead | packages/shared/src/assets.ts:995-1066 | what any list of labels becomes after writing and reading, rows and errors |
| AssetLabels.LabelsSurviveIff | packages/shared/src/assets.ts:995-1066 | the same labels come back in order without errors exactly when their fields are trimmed and required ones non-empty |
| AssetLabels.FileIs | packages/shared/src/assets.ts:1012-1030 | any file: the quoting error, the first missing required column, or else all its rows |
| AssetLabels.ParseRowIs | packages/shared/src/assets.ts:1032-1063 | any row: refused for its version first, then for a blank tag or QR text, else a label of trimmed fields |
| AssetLabels.RecordIs | packages/shared/src/assets.ts:1340-1360 | a record has a field for each named column, of several the last, empty in a short row |
| AssetLabels.GapsBecomeOne | packages/shared/src/assets.ts:1279-1285 | in a header every run of white space and dashes becomes one underscore |
| TagRetarget.PlanPrefixRetarget | packages/shared/src/assets.ts:579-641 | the two loops compute the plan |
| TagRetarget.PlanSortsEveryRow | packages/shared/src/assets.ts:579-641 | each row is moved, refused, skipped or kept by a rule stated over the whole table, in order, and the counts add up |
| TagRetarget.VerdictIs | packages/shared/src/assets.ts:590-628 | the rule in terms of the tags alone: skipped outside the scheme, kept when it reads the same, refused when another row shows it or an earlier one gets it, else moved |
| TagRetarget.TargetIs | packages/shared/src/assets.ts:525-552 | the new tag is the new prefix, a dash and what follows the old prefix and dash in the trimmed tag |
| TagRetarget.MovesAre | packages/shared/src/assets.ts:627-629 | each moved row is in the plan, in row order, with its trimmed tag and its new one |
| TagRetarget.NormalizedStays | packages/shared/src/assets.ts:488-499 | normalising a prefix again changes nothing |
| TagRetarget.EveryPrefixKeepsTagsUnique | packages/api-contract/src/router.ts:1263-1274 | after any prefix of the updates all tags are still pairwise distinct |
| TagRetarget.FinalTag | packages/api-contract/src/router.ts:1263-1274 | after any prefix each row has its target if its update was applied, else its old tag |
| TagRetarget.AssetTable.ApplyUpdates | packages/api-contract/src/router.ts:1263-1274 | the transaction applies every update or none |
| TagRetarget.AssetTable.RetargetTags | packages/api-contract/src/router.ts:1263-1274 | planned on the current table, the transaction never meets the unique index |
| AssetLifecycle.FormatThenParse | packages/shared/src/assets.ts:1194-1214 | reading a written date gives it back, for years 100 to 9999 |
| AssetLifecycle.ParseThenFormat | packages/shared/src/assets.ts:1194-1214 | text that reads as a date is that date's own text |
| AssetLifecycle.AddMonthsIsPlusMonths | packages/shared/src/assets.ts:1105-1122 | adding on the text is adding whole months on the date |
| AssetLifecycle.AddMonthsLands | packages/shared/src/assets.ts:1105-1122 | the result is exactly that many months later, same day or month's last, readable exactly up to the year 9999, and a RangeError exactly beyond August 275760 |
| AssetLifecycle.NothingAddedIff | packages/shared/src/assets.ts:1105-1110 | no date exactly for a text that is none, or for no months |
| AssetLifecycle.TheYearTenThousandIsUnreadable | packages/shared/src/assets.ts:1105-1122 | one month after 9999-12-31 is no date |
| AssetLifecycle.LongYearText | packages/shared/src/assets.ts:1212-1214 | what such a date is written as instead |
| AssetLifecycle.PlusMonthsMonotone | packages/shared/src/assets.ts:1105-1122 | a later start or more months never lands earlier |
| AssetLifecycle.StateNeverMovesBack | packages/shared/src/assets.ts:1124-1192 | as time passes the state only moves forward |
| AssetLifecycle.StateByDays | packages/shared/src/assets.ts:1124-1192 | retired from the day itself, due for the given days before it |
| AssetLifecycle.RetireOnIs | packages/shared/src/assets.ts:1124-1163 | the asset's own date stands; else one is computed, the asset's purchase date and life time going before the model's |
| AssetLifecycle.ComputedRetirement | packages/shared/src/assets.ts:1124-1192 | an asset without its own date is due on the day so many whole months after its purchase, with the state that follows |
| AssetLifecycle.ShownAs | packages/shared/src/assets.ts:1164-1191 | a retired status shows as retired whatever the date, a disposed one as gone |
| AssetLink.MatchIs | packages/shared/src/assets.ts:1251-1271 | the match is the first candidate whose serial agrees; without any, the first whose host name or tag does; none exactly when neither agrees for any |
| AssetLink.LinkOneDoes | packages/api-contract/src/asset-link.ts:331-349 | a device gets the first available asset of its organization that agrees, by serial before host, unless it has one already or none fits |
| AssetLink.LinkTables.TryLinkDeviceToAsset | packages/api-contract/src/asset-link.ts:331-349 | one device: match among unmatched assets of its organization, then the guarded update |
| AssetLink.LinkTables.TryLinkDevicesToAssets | packages/api-contract/src/asset-link.ts:351-407 | the batch with lists read once reaches the same links as one device at a time |
| AssetLink.LinkOneKeeps | packages/api-contract/src/asset-link.ts:331-349 | one link keeps the map one-to-one, within organizations, and changes no link already made |
| AssetLink.LinkEachKeeps | packages/api-contract/src/asset-link.ts:351-407 | so does any list of rows |
| AssetLink.LinkInTurn | packages/api-contract/src/asset-link.ts:351-407 | rows are linked in turn, and each link made is listed |
| FlowLog.LinesAndRest | packages/vpn/src/flows.ts:160-168 | lines and rest write the text out again and hold no newline |
| FlowLog.OnlyOneReading | packages/vpn/src/flows.ts:160-168 | no other lines and rest do |
| FlowLog.CarriedRest | apps/worker/src/flows.ts:190-197 | reading in two parts with the rest carried is reading at once |
| FlowLog.StartIs | apps/worker/src/flows.ts:169-183 | a pass reads on after the cursor only in the same file, and only if that is not shorter now |
| FlowLog.ReadIs | apps/worker/src/flows.ts:184-200 | it reads at most eight mebibytes, and works on the carried rest and what it read, or on nothing |
| FlowLog.PassReads | apps/worker/src/flows.ts:154-200 | a pass delivers exactly the lines its new cursor adds |
| FlowLog.EveryLineOnce | apps/worker/src/flows.ts:229-309 | over every interleaving of appends, passes and crashes, delivered lines plus rest are the log up to the cursor, and crashed attempts only wrote lines that come next |
| FlowLog.CrashDoes | apps/worker/src/flows.ts:278-309 | an attempt that dies leaves the first so many lines of its pass and nothing else |
| FlowLog.PassesCatchUp | apps/worker/src/flows.ts:186-197 | enough bounded passes deliver every complete line |
| FlowLog.TruncatedLogRereadIff | apps/worker/src/flows.ts:169-183 | after a truncation seen empty, new text is delivered from its first line exactly while shorter than the old offset; otherwise all before that offset is lost and the rest is read on from the old carried rest |
| FlowLog.AcrossTruncation | apps/worker/src/flows.ts:154-309 | over any appends, passes and crashes after a truncation, and any number of truncations, exactly which text has been delivered as lines |
| FlowLog.TruncatedTextIsSkipped | apps/worker/src/flows.ts:169-183 | a log emptied, seen empty and grown back loses its first line |
| FlowIngest.FlowWorker.Collect | apps/worker/src/flows.ts:247-276 | the loop computes rows, probes and the skipped count |
| FlowIngest.FlowWorker.IngestFlows | apps/worker/src/flows.ts:229-309 | a run stores the rows of exactly the lines read, raises its alerts and then moves the cursor; one that dies has stored whole batches, or all rows and some alerts, and the cursor stays |
| FlowIngest.FlowWorker.RaiseProbes | apps/worker/src/flows.ts:284-301 | one alert for each probing device, in order, or the first few |
| FlowIngest.FlowWorker.InsertRows | apps/worker/src/flows.ts:278-282 | the batches together are the rows, in order |
| FlowIngest.RowsOfSomeLines | apps/worker/src/flows.ts:278-282 | what a dead run stored are the rows of a first part of its lines |
| FlowIngest.ProbesReported | apps/worker/src/flows.ts:260-275 | each device is reported once, with exactly the targets of its dropped attempts |
| FlowIngest.LinesAccountedFor | apps/worker/src/flows.ts:251-256 | every line is stored, skipped or blank |
| FlowIngest.RowOfLine | apps/worker/src/flows.ts:251-258 | each parsed line has its row, in order, attributed to whoever has its source address |
| FlowIngest.ReportsInOrder | apps/worker/src/flows.ts:260-275 | devices are reported in the order of their first dropped attempt |
| PeerReconcile.NormalizedSet | packages/vpn/src/index.ts:64-66 | exactly the trimmed non-blank addresses, once each |
| PeerReconcile.VpnWorker.ReconcileVpnPeers | apps/worker/src/index.ts:472-720 | the three loops amount to one pass; only keys of enabled, unrevoked peers are left, and only stored fields of such identities and unreadable ones |
| PeerReconcile.VpnWorker.RemoveUnknown | apps/worker/src/index.ts:714-720 | removes exactly the peers dumped at the start that nobody knows |
| PeerReconcile.PassResult | apps/worker/src/index.ts:472-720 | whatever was there, the peers left are the wanted ones, each address with the last that claims it |
| PeerReconcile.PassLeaves | apps/worker/src/index.ts:490-720 | a key is on the interface exactly when a listed peer has it, enabled and not revoked, and a network is routed to the last such peer that asks for it |
| PeerReconcile.SecondPassChangesNothing | apps/worker/src/index.ts:472-720 | the result does not depend on the start, so a second pass changes nothing |
| PeerReconcile.PassIsExactIff | apps/worker/src/index.ts:472-720 | every wanted peer gets all its addresses exactly when no two of them share one |
| PeerReconcile.SharedNetworkGoesToTheLast | apps/worker/src/index.ts:472-720 | of two devices routed to one network the first is left without it |
| PeerReconcile.ObservedIs | apps/worker/src/index.ts:476-560 | the state kept of an enabled, unrevoked identity is what observing it makes of the one loaded, if any |
| PeerReconcile.StatesAfter | apps/worker/src/index.ts:590-596 | of the fields stored, exactly those of wanted identities survive the save, and those that could not be read |
| PeerReconcile.UnreadableStateStays | apps/worker/src/peer-state.ts:28-52 | an unreadable field of a revoked identity stays |
| ModuleReports.ValidateReportedModules | packages/shared/src/agent-modules.ts:424-503 | the loop accepts the filtered reports or names the first thing wrong |
| ModuleReports.PoisonedIff | packages/shared/src/agent-modules.ts:85-100 | the recursive scan objects exactly when some part, at any depth, has a forbidden key, looks like a script, or lies too deep |
| ModuleReports.Forbidden | packages/shared/src/agent-modules.ts:43-49 | the three forbidden names in any case; the seventh level is too deep, the sixth is not |
| ModuleReports.CheckObservations | packages/shared/src/agent-modules.ts:471-493 | likewise for the observations of one report |
| ModuleReports.AcceptedIffSound | packages/shared/src/agent-modules.ts:424-503 | refused exactly when a module repeats or an assigned module's report has the wrong kind, a repeated collector or a wrong type |
| ModuleReports.AcceptedReports | packages/shared/src/agent-modules.ts:415-423 | each report of an assigned module comes through once, cut down to known collectors, and nothing else does |
| ModuleReports.ReportsInOrder | packages/shared/src/agent-modules.ts:441-503 | report by report, the first thing wrong is what is named, and what is kept is in order |
| ModuleObservations.ObservationTable.IngestModuleObservations | apps/web/lib/agent-modules.ts:84-168 | the deletes, updates and inserts amount to dropping unassigned modules and replacing reported ones |
| ModuleObservations.ObservationTable.StoreReport | apps/web/lib/agent-modules.ts:116-167 | update, insert and delete of stale rows leave exactly the report's rows for its module |
| ModuleObservations.EveryReportIsHeld | apps/web/lib/agent-modules.ts:116-167 | after all reports each module with a report holds exactly that report |
| ModuleObservations.StoredAfterCheckIn | apps/web/lib/agent-modules.ts:84-168 | accepted and stored: unassigned modules have no rows, reported ones their report, others and other devices are untouched |
| Access.IntersectPermissions | packages/auth/src/access.ts:225-240 | exactly the grants the owner has, once each |
| Access.BuildOwner | packages/auth/src/server.ts:94-135 | an owner's permissions are those of its platform role and active memberships |
| Access.RolesMay | packages/auth/src/access.ts:82-165 | the role tables by rank: viewers look, each role adds to the one below |
| Access.FullConsoleIff | packages/auth/src/access.ts:185-205 | who gets the full console |
| Access.KeyActorIs | packages/auth/src/access.ts:253-309 | what a key's actor has of its owner's roles and grants, with and without an organization |
| Access.AllowedIff | packages/auth/src/access.ts:363-615 | the case split comes down to the key's grant, the platform role, or a membership |
| Access.AuthorizeIff | packages/auth/src/access.ts:363-615 | the same from the fields: the first active membership of the organization or site, by its role |
| Access.RefusedBecause | packages/auth/src/access.ts:363-615 | the reason of a refusal: the key's grant first, then the scope of the resource |
| Access.GrantedBecause | packages/auth/src/access.ts:363-615 | the reason of a grant: the platform role first, then the membership it rests on |
| Access.AllowedIsEffective | packages/auth/src/access.ts:363-615 | whatever an owner may do anywhere is among its permissions |
| Access.KeyNeverExceedsOwner | packages/auth/src/access.ts:253-309 | a key's actor is allowed nothing its owner is not, and nothing the key does not grant |
| Access.UnscopedKeyAllowsIff | packages/auth/src/access.ts:299-308 | a key without an organization allows exactly what both allow |
| Access.ScopedKeyAllowsIff | packages/auth/src/access.ts:263-297 | inside its organization a member's scoped key allows exactly what both allow |
| Access.ScopedKeyIsConfined | packages/auth/src/access.ts:263-297 | outside its organization a scoped key reaches exactly the audit trails of single devices, when it grants the permission and its owner has a site role with it inside |
| Access.OtherTrailIsReached | packages/auth/src/access.ts:263-297 | a viewer at a site of one organization, with a key tied to it, opens the trail of a device of another |
| Access.KeyConsoleWithinOwners | packages/auth/src/access.ts:185-205 | a key gets the full console only where its owner does |
| Access.OneOrganizationPerSiteIsNeeded | packages/auth/src/access.ts:263-297 | were a site listed under two organizations, a key could exceed its owner |

## Left out

- Floating-point rounding in the token bucket: tokens are reals.
- Time-zone data: a zone is any function from instants to offsets of whole seconds within a day's range.
- MaintenanceWindow.WeeklyActiveIff: starts are taken some weeks after the year 100, below which `Date.UTC` reads years as two-digit ones; sub-seconds of a start are dropped, as the zone's fields drop them.
- TokenBucketScript.ScriptRefinesBucket: for capacity at least one (below it a new key already disagrees, `TokenBucketScript.FreshKeyAgreesIff`), refill above nought and cost one, with the server's clock gaining at most a second on the caller's between two calls; for a higher cost the two versions report different `remaining` on a refusal.
- AssetLink.LinkTables.TryLinkDevicesToAssets: assets are read in one fixed order; filling in an asset's identity after a link is not modelled.
- AlertProtocol.NoticesInOrderIff: notices are followed for one channel at a time, which `AlertChannels.EveryChannelIsNotified` justifies; severity, title and detail of rows, audit events and tickets are not part of the model.
- AlertChannels.DeliveryQueue.EnqueueAlertNotifications: the payload of a delivery is not modelled.
- AlertTable.AlertStore.RaiseAlert: severity, title and detail are not modelled, nor the alert policy beyond its switch; the retry after a lost race cannot occur uninterrupted; interleaved, it is another raise.
- AfterHours.Worker.EvaluateAfterHoursSites: opening hours are a reading supplied for each pass; expiring old runs is not modelled, and what a pass also does, queueing a started run's commands and cancelling stale runs, is in `CommandTables` and `AfterHours.CancelStaleActiveRuns`.
- AfterHours.CancelStaleActiveRuns: the list of active runs within the look-back is taken as selected.
- FlowIngest.FlowWorker.IngestFlows: a line's parsing is a parameter; the log is ASCII, and the report of a probe lists all targets rather than the first twenty.
- FlowLog.EveryLineOnce: the log keeps its inode and is only appended to; truncation is in `FlowLog.AcrossTruncation`, a change of inode is not modelled.
- PeerReconcile.VpnWorker.ReconcileVpnPeers: commands succeed, addresses are compared as text, and what an observation of a peer computes is a parameter; firewall rules, events and alerts are not modelled.
- ModuleReports.ValidateReportedModules: what text looks like a script is a parameter, and so is the reading of the payload into reports.
- Acknowledged commands: only the status is kept, not the detail text, of which the first report counts while for the status the last does.
- Manual and approved after-hours runs, playbook evaluation and its cooldowns, the grace period after planned reboots.
- The choice among several active maintenance windows, alert policies, channel filters.
- Case mapping and Unicode: upper-casing of tags and normalising of serials and host names are parameters; headers are lower-cased in ASCII.
- Database, Redis, HTTP and process calls, pages, tables, templates, encryption, sign-on, installers and the agent itself.
