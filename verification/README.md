# Verified models of the thermal governor and the GNSS middleware

This project models the stateful cores of two components of the device tree — the thermal
governor under `thermal/` and the location middleware under `gps/` — and proves what they
keep over whole runs. `dafny verify dfyconfig.toml` checks it.

Each component comes in two layers. A value layer says what every event, message or call
makes of the state, as functions, and holds the theorems. An object layer has the same fields
as the original class and changes them in place, with the original loops; each of its methods
ensures that the object's abstract value made exactly the step of the value layer.

* **Thermal governor.** `ThermalSeverity` (severities with hysteresis), `ThermalPid` (target
  level, anti-windup, budget), `ThermalBudget` (what the budget is, and when a hotter reading gets
  more), `ThermalWindup` (the error integral over runs of readings), `ThermalAllocation` (splitting
  the budget), `ThermalCooling` (requests, dirty list, sysfs), `ThermalHints` (power hints),
  `ThermalSensor` (one sensor's status), `ThermalPass` and `ThermalHelper` (one pass of the watcher
  over all sensors).
* **Priority queue.** `LocHeapTree` (the value of a rank-ordered tree with cached sizes) and
  `LocHeap` (linked nodes that never move, only their data is swapped).
* **AGPS.** `AgpsMachine` (states, events, connection ledger), `AgpsLifeCycle` (what a
  subscriber sees), `AgpsListing` (who is listed and who hears of what), `Agps` (the machine and its manager as objects).
* **Trip batching.** `TripSessions`, `TripSafety`, `TripPlanning`, `TripPacing`, `TripSaving` and
  `BatchingAdapter`:
  several trips share one engine batch whose distance counter starts again at every restart.
* **Geofences.** `Geofences` (two-way index, outstanding requests, engine restart),
  `GeofenceCommands` (what a command comes to) and `GeofenceAdapter`.
* **Client destruction.** `DestroyHandshake` (interleaved with any number of clients),
  `DestroyMessages` (loading, registration and removal messages) and `LocationAPI` (interface pointers and bit masks).
* **Indexes.** `AdapterList` and `LocApiBase` (the fixed array of adapters), `SessionIds`.

Each mutex section and each message-queue callback is one atomic step.

## What does not hold of the code

Each of these is a theorem here, with the exact condition under which the expected property
does hold, and a concrete run or configuration where one is named.

* With overlapping hysteresis bands a *falling* temperature can raise the severity; levels are
  entered only at their thresholds exactly when bands are disjoint
  (`ThermalSeverity.EntryNeedsDisjointBands`).
* A reading right at a threshold without hysteresis can show a lower level than that one, when
  it falls from a higher level; it shows the level or a higher one exactly otherwise
  (`ThermalSeverity.ReachedIsShownExactly`, and for cold levels
  `ThermalSeverity.ColdReachedIsShownExactly`; both cases, `ThermalSeverity.WidthlessBandDrops`).
* A hotter reading can get a *larger* power budget: where errors begin or cease to count towards
  the integral, the budget jumps. Before its limits the budget never grows with the temperature,
  for non-negative gains, exactly when there is no integral gain or no error can count
  (`ThermalBudget.HotterDemandsNoMoreExactly`; a sensor, `ThermalBudget.HotterGetsMore`).
* A level with `k_i` = 0 and a positive `i_max` defeats the anti-windup rule when the sensor can
  go on showing a severity that selects it, at a reading whose error is below the cut-off: the
  integral is bounded over all runs of readings exactly when there is no such severity and
  reading (`ThermalWindup.BoundedExactly`; a sensor that winds up, `ThermalWindup.WindsUpAt45`,
  and one with such a level that does not, `ThermalWindup.SelectableIsNotEnough`).
* A trip start that makes the engine restart: if the engine refuses, distance is credited that
  was not travelled (`TripSafety.StartSafeExactly`, with and without a failed distance query);
  if it restarts, running trips lose what was travelled since their distance was last recorded
  (`TripSafety.StartExactly`).
* The engine can run slower than a trip asked for: after it refused a start that needed a shorter
  interval (`TripPacing.PaceKept`, exactly then; a run, `TripPacing.RefusedFasterIsSlow`), and
  when a trip asked for an interval of zero, which the fold takes for "none yet"
  (`TripPacing.LeastIntervalExactly`; a run, `TripPacing.ZeroIntervalIsForgotten`).
* A completion report that was not counted in the present batch credits too much: one counted
  before a trip's offset was taken wraps around, one queued before the engine restarted runs
  ahead (`TripSafety.ReportsInBatchExactly`; runs in which a trip that travelled nothing is
  reported complete, `TripSafety.BelowOffsetIsEarly`, which assumes that the engine may report
  before the distance it was given, and `TripSafety.BeforeRestartIsEarly`, which does not).
* Stops do not reach all trips. Only the first trip of a batch is saved as a session, and every
  stop wants a saved session: a stop command takes a running trip out exactly when the trip was
  started first (`TripSaving.StopServedExactly`; a run, `TripSaving.SecondTripCannotBeStopped`).
  Completion and stops leave the saved session behind, and when its client leaves, the adapter
  reads past the end of its trip table (gps/batching/BatchingAdapter.cpp:889-890), after it has
  told the engine to stop if another client's trip is the only one running (:866-867): this
  happens exactly when a client leaves with a saved session whose trip has ended
  (`TripSaving.SavedExactly`, `TripSaving.FaultsExactly`; a run, `TripSaving.LeaverFaults`).
* A re-planned batch is not always aimed at the end of the next trip: after a stop the plan uses
  distances as last recorded, and a restart for another interval alone runs the old distance in
  full once more (`TripPlanning.ReplanAimsExactly`, `TripPlanning.StopAimsExactly`; runs,
  `TripPlanning.StopMissesNextEnd` and `TripPlanning.IntervalRestartMissesNextEnd`).
* An AGPS client that subscribes a live handle again while the connection is up gets a second
  open-success: lives are regular exactly when nobody does that (`AgpsLifeCycle.LifeCycle`).
  A handle that subscribes again while it waits for a close is not made active and hears of no
  grant (`AgpsListing.InactiveStays`).
  A modem restart leaves PENDING, ACQUIRED or RELEASING with nobody listed; state and list agree
  on until exactly a restart outside RELEASED (`AgpsLifeCycle.AgreementEndsExactly`; runs,
  `AgpsLifeCycle.RestartLeavesNobody`).
* Geofences of a client that has left can come back: an addition that was on its way is saved
  all the same, and an engine restart adds fences again whose removal is not confirmed yet.
  Nothing of the client is left once no removal is on its way, exactly as long as no addition of
  it is confirmed and no removal refused (`Geofences.LeavesNoTraceExactly`; runs,
  `Geofences.LateAdditionReturns` and `Geofences.RestartReturns`).
* An engine restart forgets recorded `paused` flags while the engine is asked to pause again:
  both agree afterwards exactly when no fence was paused
  (`Geofences.RestartForgetsPauseExactly`).
* Callbacks updated after a client was destroyed break the destroy handshake, except exactly
  when the client was destroyed without a callback and all its messages are delivered
  (`DestroyHandshake.UpdateExactly`; a run, `DestroyHandshake.UpdateAfterDestroyIsEarly`).
* The watcher is started before the table of supported power hints is filled
  (thermal/thermal-helper.cpp:395, :403), and its first pass comes at once: a sensor that is hot
  by then is notified against an empty table, and its supported mode stays off until its next
  notification. When the table is filled, the sensors out of step are exactly those notified
  before of a severity with a supported mode
  (`ThermalHints.PowerHints.UpdateSupportedPowerHints`; `ThermalHints.HotAtBoot` makes one).
* A connection report for a type whose state machine was never created is a call through null
  (gps/gnss/Agps.cpp:636-662): exactly then `Agps.AgpsManager.ReportAtlOpenSuccess` and the two
  methods after it fail.
* The hard-limit step reads `hard_limit_request_map.at` for every bound device
  (thermal/thermal-helper.cpp:671-672): it finds its entries exactly when limits on one bound
  device mean limits on all (`ThermalSensor.LimitsFoundExactly`).

Where code and comment differ, the model follows the code: `LocHeap::remove` matches by identity
(gps/utils/LocHeap.cpp:173), although the header speaks of equal rank (gps/utils/LocHeap.h:84).

## Model

| member | source | states |
|---|---|---|
| ThermalSeverity.GetSeverityFromThresholds | thermal/thermal-helper.cpp:760-799 | One scan from the highest level down yields the highest level reached, or for a falling reading the highest level still held by its hysteresis band; for cold levels, in the raw thresholds, the highest level at or above the reading, or the highest whose threshold plus hysteresis is still above it |
| ThermalSeverity.EnterAtThreshold | thermal/thermal-helper.cpp:773-793 | With disjoint bands a configured level is entered only by a reading at or above its threshold |
| ThermalSeverity.LeaveBelowBand | thermal/thermal-helper.cpp:778-793 | A level is left only by a reading at or below its threshold less its hysteresis |
| ThermalSeverity.ReachedIsShownExactly | thermal/thermal-helper.cpp:773-793 | A reading at or above a level's threshold shows a lower level if and only if it falls from above all thresholds still reached and lies at or below the foot of every band from that level up, which means right at a threshold without hysteresis |
| ThermalSeverity.ColdEntersAtThreshold | thermal/thermal-helper.cpp:782-797 | With disjoint cold bands a cold level is entered only by a reading at or below its threshold |
| ThermalSeverity.ColdLeavesAboveBand | thermal/thermal-helper.cpp:786-797 | A cold level is left only by a reading at or above its threshold plus its hysteresis |
| ThermalSeverity.ColdReachedIsShownExactly | thermal/thermal-helper.cpp:782-797 | A reading at or below a cold threshold shows that level or a higher one, with the mirrored exception at a threshold without hysteresis |
| ThermalSeverity.WidthlessBandDrops | thermal/thermal-helper.cpp:791-796 | Such an exception on the hot and on the cold side |
| ThermalSeverity.CrossingsAreCovered | thermal/thermal-helper.cpp:1229-1246 | Along a run, the bands paid for by crossings of a level plus the way from the last crossing are covered by the readings' variation |
| ThermalSeverity.NoChatter | thermal/thermal-helper.cpp:760-799 | For every run of readings, (crossings of a level - 1) times its hysteresis is at most the total variation of the readings |
| ThermalSeverity.ColdNoChatter | thermal/thermal-helper.cpp:760-799 | The same bound for every run of readings on the cold side, in the raw cold thresholds |
| ThermalSeverity.OverlapEntersEarly | thermal/thermal-helper.cpp:791-793 | Two overlapping bands let a falling reading enter a level below its threshold |
| ThermalSeverity.EntryNeedsDisjointBands | thermal/thermal-helper.cpp:760-799 | For ascending thresholds, levels are entered only at their thresholds in all runs if and only if bands are disjoint |
| ThermalPid.GetTargetStateOfPID | thermal/thermal-helper.cpp:560-575 | The scan finds the first configured level above the severity, or else the last configured one |
| ThermalPid.PidPowerCalculator | thermal/thermal-helper.cpp:578-628 | The budget and the new error state, with reset and an unlimited budget when control is not active |
| ThermalPid.ITermFollowsIntegral | thermal/thermal-helper.cpp:596-603 | The integral term used is the gain times the integral stored afterwards, whether or not the error was taken in |
| ThermalPid.BudgetWithinLimits | thermal/thermal-helper.cpp:612-619 | While control is active the budget lies within the allocation limits of the target level |
| ThermalPid.IntegralWithinLimit | thermal/thermal-helper.cpp:597-603 | An error is taken in only if the integral stays strictly inside i_max / abs(k_i) |
| ThermalPid.IntegralIsBounded | thermal/thermal-helper.cpp:578-603 | Over all readings, severities and target changes the integral is zero or strictly inside the largest limit of the configured levels |
| ThermalBudget.BudgetFromNumbers | thermal/thermal-helper.cpp:592-619 | Between its limits the budget is `s_power` plus `k_po` times the error above the threshold and `k_pu` times it below, plus `k_i` times the integral stored afterwards, plus `k_d` times the error's change per elapsed time; beyond them it is the limit; the error is taken in if and only if it is below the cut-off and the term inside `i_max` |
| ThermalBudget.InactiveExactly | thermal/thermal-helper.cpp:586-590 | The state is reset and the budget unlimited if and only if the severity is NONE or the controller has no level above NONE |
| ThermalBudget.HotterGetsNoMore | thermal/thermal-helper.cpp:592-619 | With non-negative gains and equal history a hotter reading never gets the larger budget, if both errors are taken in or neither |
| ThermalBudget.HotterDemandsNoMoreExactly | thermal/thermal-helper.cpp:592-603 | Over all pairs of readings that holds of the budget before its limits if and only if there is no integral gain or no error can be taken in |
| ThermalBudget.HotterGetsMore | thermal/thermal-helper.cpp:597-603 | A sensor that gets 89 one degree above its threshold and 98 two degrees above it |
| ThermalWindup.SensorSenses | thermal/thermal-helper.cpp:1229-1263 | A monitored sensor with a controller goes through exactly the coupled steps: the reading decides the severities and they decide whose error counts |
| ThermalWindup.Showing | thermal/thermal-helper.cpp:760-799 | A severity that a reading can go on showing is shown after at most one other reading and then for as long as the reading is repeated |
| ThermalWindup.ShownLeadsToShows | thermal/thermal-helper.cpp:760-799 | Any severity at which some history lets a reading take an unlimited error in is one that a reading there or next to it can go on showing |
| ThermalWindup.WindsUp | thermal/thermal-helper.cpp:597-602 | Repeating such a reading adds its error every time |
| ThermalWindup.StaysInside | thermal/thermal-helper.cpp:578-603 | When no reading can ever take an unlimited error in, the integral stays inside the largest limit over all runs of readings, whatever thresholds and hysteresis are |
| ThermalWindup.BoundedExactly | thermal/thermal-helper.cpp:578-603 | Over all runs of readings the integral is bounded if and only if no severity that a reading can go on showing selects a level without a limit whose error is below the cut-off and not zero |
| ThermalWindup.WindsUpAt45 | thermal/thermal-helper.cpp:597-602 | A sensor that winds up |
| ThermalWindup.SelectableIsNotEnough | thermal/thermal-helper.cpp:597-602 | A sensor with a selectable level without a limit that stays bounded all the same |
| ThermalAllocation.SumWeights | thermal/thermal-helper.cpp:636-640 | The sum of the weights that are not NaN |
| ThermalAllocation.MapStateByPower | thermal/thermal-helper.cpp:655-659 | The first state that draws less than the share, or the last state |
| ThermalAllocation.RequestCdevByPower | thermal/thermal-helper.cpp:630-667 | Fails exactly for a total weight of zero and then changes nothing; otherwise weighted devices get their choice and all other requests stay |
| ThermalAllocation.SharesSumToBudget | thermal/thermal-helper.cpp:648-651 | The shares of the weighted devices sum exactly to the budget |
| ThermalAllocation.ChoiceIsLeast | thermal/thermal-helper.cpp:655-660 | The choice is the least state below the share or the last one, and it draws no more than the share exactly when some state allows that |
| ThermalAllocation.DrawnWithinBudget | thermal/thermal-helper.cpp:647-665 | If each last state fits its share, the chosen states together draw at most the budget |
| ThermalCooling.RequestState | thermal/thermal-helper.cpp:718-733 | Stronger of both requests less the release step, held up by the floor only while releasing, and cut by the ceiling |
| ThermalCooling.AmountIs | thermal/thermal-helper.cpp:702-733 | Without a release step the request is the stronger of both, with one that less the step, not below zero or the floor, and in both cases not above the ceiling; this leaves one value |
| ThermalCooling.MoreIsMore | thermal/thermal-helper.cpp:702-733 | Raising the power request or the hard limit never lowers the request |
| ThermalCooling.ClampWithin | thermal/thermal-helper.cpp:324-333 | After start-up all ceilings lie between 0 and the device's deepest state, if none was negative |
| ThermalCooling.WantedInRange | thermal/thermal-helper.cpp:718-733 | A request lies between 0 and the deepest state whatever floors, limits and release steps are |
| ThermalCooling.CoolingDevices.ComputeCoolingDevicesRequest | thermal/thermal-helper.cpp:681-741 | Exactly the sensor's entries are recomputed, in the rows that know it; every changed row is listed |
| ThermalCooling.CoolingDevices.MaxRequest | thermal/thermal-helper.cpp:747-753 | The maximum of a row's requests, at least 0 |
| ThermalCooling.CoolingDevices.UpdateCoolingDevices | thermal/thermal-helper.cpp:743-758 | Listed devices are up to date afterwards and those that were stay so |
| ThermalHints.PowerHints.UpdateSupportedPowerHints | thermal/thermal-helper.cpp:1329-1353 | For each hinting sensor and severity the table holds the greatest level not above it that the power HAL supports; whenever it is filled, the sensors out of step with it are exactly those notified before of a severity with a supported mode |
| ThermalHints.PowerHints.OnlySupportedModes | thermal/thermal-helper.cpp:1329-1374 | At any time a mode that is on is the greatest supported one not above the severity last notified, so an unsupported mode is never on; it is on whenever there is one if and only if the sensor is in step |
| ThermalHints.PowerHints.SetMode | thermal/thermal-helper.cpp:1365-1371 | A mode is switched on only while no other mode of the sensor is on |
| ThermalHints.PowerHints.SendPowerExtHint | thermal/thermal-helper.cpp:1355-1374 | A notified sensor is in step afterwards, whether or not it was before: the modes on are exactly its stored hint, and that is the supported level of the severity; no other sensor changes |
| ThermalHints.HotAtBoot | thermal/thermal-helper.cpp:395-404 | A sensor notified of a severity with a supported mode before the table is filled has that mode off afterwards |
| ThermalSensor.UpdateSensor | thermal/thermal-helper.cpp:1229-1268 | One reading's effect on severities, PID state, PID requests and hard-limit requests |
| ThermalSensor.RequestCdevBySeverity | thermal/thermal-helper.cpp:669-679 | Every hard-limit request becomes the limit of the present severity; it fails exactly when some bound device has no entry, where the source throws |
| ThermalSensor.LimitsFoundExactly | thermal/thermal-helper.cpp:671-672 | The unchecked map access finds an entry for every bound device if and only if limits on one mean limits on all |
| ThermalSensor.StepKeepsInvariant | thermal/thermal-helper.cpp:1229-1268 | Each reading keeps severities configured, the reported severity the stronger one, the integral inside its bound and PID requests states |
| ThermalSensor.SeverityFromNumbers | thermal/thermal-helper.cpp:1229-1246 | A reading leaves both sides' severities as the raw thresholds say, the stronger of them as the sensor's severity, and every hard limit as configured for it |
| ThermalSensor.AllotmentFromNumbers | thermal/thermal-helper.cpp:1255-1263 | Each device with a weight at the target level gets the first state that draws less than its part of the budget by weight, or the last one; all other requests stay |
| ThermalPass.NoRequestNoDevice | thermal/thermal-helper.cpp:1271-1295 | Skipping the request step for a sensor without request maps changes nothing, since no device knows it |
| ThermalPass.PassHandles | thermal/thermal-helper.cpp:1156-1303 | Handling one more sensor carries the account of statuses, requests, dirty list and changed severities forward |
| ThermalPass.EntryFromNumbers | thermal/thermal-helper.cpp:681-741 | After a pass the entry of a watched sensor with a reading is, in every row that knows it, what its two requests, the release step, the floor and the ceiling for its severity amount to; the entry of any other sensor is as before |
| ThermalPass.DeviceIsThrottled | thermal/thermal-helper.cpp:681-758 | Without a release step the kernel's state of a device is at least the power request and at least the hard limit of every such sensor, or at least its ceiling |
| ThermalPass.OthersKeepStatus | thermal/thermal-helper.cpp:1156-1246 | A sensor's status makes its step if and only if the sensor is watched and has a reading |
| ThermalPass.PassKeepsRange | thermal/thermal-helper.cpp:681-741 | A pass keeps every request between 0 and its device's deepest state |
| ThermalPass.AggregateInRange | thermal/thermal-helper.cpp:743-758 | So the value that reaches sysfs is a state the device has |
| ThermalHelper.ThermalHelper.constructor | thermal/thermal-helper.cpp:286-348 | Ceilings are clamped, statuses fresh, all requests and sysfs zero and coherent |
| ThermalHelper.InitialInRange | thermal/thermal-helper.cpp:322-333 | With non-negative ceilings the helper starts within range |
| ThermalHelper.RowsKnowTakers | thermal/thermal-helper.cpp:305-320 | A device's row knows exactly the sensors that bind it with a weight or a limit |
| ThermalHelper.StartUpFromNumbers | thermal/thermal-helper.cpp:286-334 | Start-up lowers ceilings to the devices' deepest states, changes nothing else of the configuration, and starts every status at nothing |
| ThermalHelper.ThermalHelper.HandleSensor | thermal/thermal-helper.cpp:1229-1295 | One due sensor: its status makes its step, its requests follow, changed rows are listed |
| ThermalHelper.ThermalHelper.HandleAll | thermal/thermal-helper.cpp:1156-1303 | After the loop, in any order of sensors, exactly the due sensors made their step and have fresh requests |
| ThermalHelper.ThermalHelper.UpdateSupportedPowerHints | thermal/thermal-helper.cpp:395-404 | Filled after any number of passes, the table leaves out of step exactly the hinting sensors notified before of a severity with a supported mode |
| ThermalHelper.ThermalHelper.ThermalWatcherCallback | thermal/thermal-helper.cpp:1148-1323 | After every pass sysfs shows for every device the aggregate of all current requests although only listed devices were written, requests stay in range, hinting sensors whose severity changed have been notified and are in step, and hinting sensors stay notified of their present severity if and only if the power HAL was there or none of them changed |
| ThermalHelper.TouchedExactly | thermal/thermal-helper.cpp:1309-1318 | What a pass does to notifications keeps all hinting sensors notified of their present severity if and only if the power HAL was there or no hint was due; nobody is notified without it, nor a sensor that sends no hints |
| ThermalHelper.ThermalHelper.HintsFollowSeverities | thermal/thermal-helper.cpp:1309-1318 | A mode that is on for a sensor is the greatest supported one for the severity last notified, and it is on whenever there is one if and only if the sensor is in step; that severity is the present one as long as all hinting sensors are kept notified |
| LocHeap.LocHeapNode.Swap | gps/utils/LocHeap.cpp:88-92 | Only data changes places; both trees stay linked as they were |
| LocHeap.LocHeapNode.Push | gps/utils/LocHeap.cpp:107-124 | The nodes form the tree that a push makes of the value, with the new node linked in and no other node added or lost |
| LocHeap.LocHeapNode.Pop | gps/utils/LocHeap.cpp:134-164 | Exactly one node is unlinked, it carries the former top data, and the caller's link is cleared exactly when nothing is left |
| LocHeap.LocHeapNode.Remove | gps/utils/LocHeap.cpp:170-193 | The node that carries the argument is unlinked if the pruned search finds one; otherwise nothing changes |
| LocHeap.LocHeapNode.CheckNodes | gps/utils/LocHeap.cpp:197-220 | True exactly when every cached size is right and no child outranks its parent |
| LocHeap.LocHeap.Push | gps/utils/LocHeap.cpp:228-235 | Contents grow by exactly the argument; order and sizes hold |
| LocHeap.LocHeap.Peek | gps/utils/LocHeap.cpp:237-243 | An element that nothing outranks, or nothing exactly for an empty heap |
| LocHeap.LocHeap.Pop | gps/utils/LocHeap.cpp:245-254 | Takes out exactly one element that nothing outranks |
| LocHeap.LocHeap.Remove | gps/utils/LocHeap.cpp:256-267 | Takes out exactly one occurrence of the argument and returns it, or nothing exactly when it is not there |
| LocHeapTree.CachedSizeIsCount | gps/utils/LocHeap.cpp:113-123 | Locally right cached sizes are the true node counts |
| LocHeapTree.NothingOutranksTop | gps/utils/LocHeap.cpp:197-220 | The parent/child check reaches every descendant |
| LocHeapTree.PushSound | gps/utils/LocHeap.cpp:107-124 | Push keeps order and sizes and adds exactly the argument |
| LocHeapTree.PopSound | gps/utils/LocHeap.cpp:134-164 | Pop keeps order and sizes and takes out exactly the top, which nothing outranks |
| LocHeapTree.RemoveFinds | gps/utils/LocHeap.cpp:170-193 | Although subtrees whose top the argument outranks are skipped, removal succeeds exactly when the argument is in the heap |
| LocHeapTree.RemoveSound | gps/utils/LocHeap.cpp:170-193 | Removal deletes exactly one occurrence and keeps order and sizes, inner nodes included |
| LocHeapTree.RunRefinesQueue | gps/utils/LocHeap.cpp:228-267 | Every run of push, pop and remove is step by step a run of a multiset priority queue |
| LocHeapTree.DrainSorts | gps/utils/LocHeap.cpp:245-254 | Popping until empty yields a rank-sorted permutation of the contents |
| LocHeapTree.PushKeepsBraun | gps/utils/LocHeap.cpp:117-121 | Size-directed push keeps left and right subtree sizes equal or one apart |
| LocHeapTree.PushOnlyIsBalanced | gps/utils/LocHeap.cpp:107-124 | After n pushes and nothing else the height h satisfies 2^(h-1) <= n < 2^h |
| AgpsMachine.StepSends | gps/gnss/Agps.cpp:73-287 | Each event sends at most one message, a request only when no connection is held and a release only when one is |
| AgpsMachine.LedgerBalances | gps/gnss/Agps.cpp:73-287 | After every run requests less releases less terminations is 1 in PENDING and ACQUIRED and 0 otherwise |
| AgpsMachine.NoDoubleRequest | gps/gnss/Agps.cpp:289-308 | A connection is never requested while one is outstanding nor released while none is |
| AgpsLifeCycle.StepAgrees | gps/gnss/Agps.cpp:73-287 | Every event keeps each handle's notifications in step with the state and the list |
| AgpsLifeCycle.StateAgreesWithList | gps/gnss/Agps.cpp:109-287 | In all runs handles are distinct, inactive means waiting for the close and RELEASED means an empty list; as long as no modem restart comes outside RELEASED, PENDING and ACQUIRED have an active subscriber and RELEASING an inactive one |
| AgpsLifeCycle.NeededLostExactly | gps/gnss/Agps.cpp:495-506 | One event makes the state outlive those who need it if and only if it is a modem restart outside RELEASED |
| AgpsLifeCycle.AgreementEndsExactly | gps/gnss/Agps.cpp:495-506 | Of any run in which state and list agree, one more event ends that if and only if it is a modem restart outside RELEASED |
| AgpsLifeCycle.RestartLeavesNobody | gps/gnss/Agps.cpp:664-675 | Runs that end in PENDING, in ACQUIRED and in RELEASING with nobody listed |
| AgpsLifeCycle.LifeCycle | gps/gnss/Agps.cpp:310-380 | Every stay has at most one open-success, only while ACQUIRED, and one close or open-failed before any leaving but a restart drop, if and only if no live handle subscribes again while ACQUIRED |
| AgpsListing.ListedExactly | gps/gnss/Agps.cpp:73-287 | After every run a handle is listed, once, if and only if it subscribed and has since not left by an unsubscribe without waiting, a denial in PENDING, a release in ACQUIRED, either in RELEASING while inactive, or a restart; the entry says whether it waits and is inactive |
| AgpsListing.CalledExactly | gps/gnss/Agps.cpp:310-380 | After every run the callbacks that an event makes to a handle are exactly those its history calls for: open-success, open-failed and close, each at most once |
| AgpsListing.GrantReaches | gps/gnss/Agps.cpp:85-90 | A handle that subscribes in PENDING and is not unsubscribed, denied or dropped gets its open-success with the grant, whoever comes and goes meanwhile |
| AgpsListing.InactiveStays | gps/gnss/Agps.cpp:392-411 | Subscribing again does not make an inactive handle active, and no grant is told to it |
| AgpsListing.StateExactly | gps/gnss/Agps.cpp:73-308 | After every run an event leads to the state that the lists before and after it call for, with a request or a release exactly when a connection begins or ceases to be held |
| Agps.AgpsStateMachine.GetSubscriber | gps/gnss/Agps.cpp:465-478 | The first listed subscriber with the handle, or null exactly when there is none |
| Agps.AgpsStateMachine.AnyActiveSubscribers | gps/gnss/Agps.cpp:432-442 | Whether some listed subscriber is active |
| Agps.AgpsStateMachine.AddSubscriber | gps/gnss/Agps.cpp:392-411 | A copy joins at the end unless the handle is listed |
| Agps.AgpsStateMachine.DeleteSubscriber | gps/gnss/Agps.cpp:413-430 | Exactly the entries with the handle are erased while the list is walked |
| Agps.AgpsStateMachine.NotifyAllSubscribers | gps/gnss/Agps.cpp:310-343 | Each concerned entry is notified once, in order, and erased under the iterator if asked |
| Agps.AgpsStateMachine.ProcessSubscribe | gps/gnss/Agps.cpp:73-107 | The subscribe step in each of the four states |
| Agps.AgpsStateMachine.ProcessUnsubscribe | gps/gnss/Agps.cpp:109-171 | The unsubscribe step in each of the four states |
| Agps.AgpsStateMachine.ProcessGranted | gps/gnss/Agps.cpp:173-194 | Only in PENDING: ACQUIRED, and active subscribers are told |
| Agps.AgpsStateMachine.ProcessReleased | gps/gnss/Agps.cpp:196-241 | Everybody leaves in ACQUIRED; in RELEASING those who waited leave and newcomers get a new request |
| Agps.AgpsStateMachine.ProcessDenied | gps/gnss/Agps.cpp:243-287 | Everybody leaves in PENDING with open-failed; RELEASING as for a release |
| Agps.AgpsStateMachine.ProcessAgpsEvent | gps/gnss/Agps.cpp:41-71 | Each event makes exactly the machine's step and keeps the list invariant |
| Agps.AgpsStateMachine.DropAllSubscribers | gps/gnss/Agps.cpp:495-506 | The list empties, the state stays |
| Agps.AgpsManager.RequestATL | gps/gnss/Agps.cpp:563-597 | Only the machine for the type steps; without one the request is refused |
| Agps.AgpsManager.ReleaseATL | gps/gnss/Agps.cpp:599-625 | Only the machine that lists the handle steps |
| Agps.AgpsManager.ReportAtlOpenSuccess | gps/gnss/Agps.cpp:627-644 | Only the machine for the type sees the grant; the report fails exactly when that machine was never created |
| Agps.AgpsManager.ReportAtlOpenFailed | gps/gnss/Agps.cpp:646-653 | Only the machine for the type sees the denial; the report fails exactly when that machine was never created |
| Agps.AgpsManager.ReportAtlClosed | gps/gnss/Agps.cpp:655-662 | Only the machine for the type sees the release; the report fails exactly when that machine was never created |
| Agps.AgpsManager.HandleModemSSR | gps/gnss/Agps.cpp:664-675 | Both machines drop their subscribers |
| TripSessions.CreditDoesNotWrap | gps/batching/BatchingAdapter.cpp:669-672 | In a safe batch the 32-bit subtraction does not wrap and the credit is at most what was travelled |
| TripSafety.FinishedEarned | gps/batching/BatchingAdapter.cpp:667-696 | Every session a report completes had really travelled its distance |
| TripSafety.StepSafe | gps/batching/BatchingAdapter.cpp:749-1028 | Every fair start, stop, report or movement keeps offsets behind the counter and credits behind the distance travelled |
| TripSafety.NeverEarly | gps/batching/BatchingAdapter.cpp:647-1028 | In every fair run (safe starts, reports of the present batch) no trip is reported complete before its distance was travelled, and no credit wraps |
| TripSafety.StartSafeExactly | gps/batching/BatchingAdapter.cpp:749-857 | A start leaves the books safe if and only if the restart it asks for succeeds, or the counter stood at zero, or no session joined since the query failed and all recorded distances lie the counter behind |
| TripSafety.ReportsInBatchExactly | gps/batching/BatchingAdapter.cpp:669-674 | With exact credits a report credits no session with more than it travelled if and only if it was counted in the present batch after the youngest offset |
| TripSafety.BelowOffsetIsEarly | gps/batching/BatchingAdapter.cpp:669-677 | A run in which a report counted before an offset was taken, by an engine that may report before the distance it was given, completes a trip that travelled nothing |
| TripSafety.BeforeRestartIsEarly | gps/batching/BatchingAdapter.cpp:669-677 | A run in which the engine's own report at the distance it was given, handled after a restart, completes a trip that travelled nothing |
| TripSafety.StartRestartForgets | gps/batching/BatchingAdapter.cpp:836-857 | A start that restarts the engine resumes sessions from the last recorded distance |
| TripSafety.StartExactly | gps/batching/BatchingAdapter.cpp:785-857 | Such a start keeps credits exact if and only if all recorded distances were up to date |
| TripSafety.NeitherEarlyNorLate | gps/batching/BatchingAdapter.cpp:647-1028 | In punctual runs a trip is complete exactly when its distance has been travelled |
| TripPlanning.FoldFindsLeast | gps/batching/BatchingAdapter.cpp:946-956 | The fold that uses zero for "none yet" finds the least distance left as long as no trip has nothing left |
| TripPlanning.AimedExactly | gps/batching/BatchingAdapter.cpp:1003-1024 | Reports at or beyond the distance the engine runs with and no earlier ones find a trip complete if and only if that is where the first trip ends |
| TripPlanning.LeastLeftIsFirstEnd | gps/batching/BatchingAdapter.cpp:946-956 | The least distance left as recorded is right if and only if a trip that ends first has its recorded distance up to date |
| TripPlanning.ReplanAimsExactly | gps/batching/BatchingAdapter.cpp:980-1024 | After a re-plan the engine is aimed if and only if a new distance was taken and a first-ending trip was up to date, or the old one happens to be right, or nothing restarted and it was aimed |
| TripPlanning.StopAimsExactly | gps/batching/BatchingAdapter.cpp:886-1024 | The same for a stop at any time, whatever was travelled since distances were recorded |
| TripPlanning.StopMissesNextEnd | gps/batching/BatchingAdapter.cpp:886-1024 | A fair run in which a stop gives the engine 100 when the next trip has 80 to go |
| TripPlanning.IntervalRestartMissesNextEnd | gps/batching/BatchingAdapter.cpp:996-1024 | A fair run in which a restart for another interval gives the engine 50 when the next trip has 30 to go |
| TripPlanning.ReportAimsExactly | gps/batching/BatchingAdapter.cpp:661-697 | After a report that leads to a restart the engine is aimed if and only if it took a new distance or the old one happens to be right |
| TripPlanning.ReportAimsAtNext | gps/batching/BatchingAdapter.cpp:661-697 | A report that completes the trip the batch ran for leaves the engine aimed at the end of the next one |
| TripPlanning.StartAimsExactly | gps/batching/BatchingAdapter.cpp:797-851 | A restart for a new session aims the engine if and only if the distance it then runs with is the least recorded one left, also when the query failed or the engine refused |
| TripPlanning.StartRestartsExactly | gps/batching/BatchingAdapter.cpp:787-851 | A new session makes the engine restart if and only if it is shorter than what is left of the batch or faster, and an accepted restart hands over the batch's distance and interval |
| TripPlanning.StartKeepsAim | gps/batching/BatchingAdapter.cpp:797-851 | A mid-batch start leaves an aimed engine aimed, for a shorter distance, for a faster interval, and when nothing is restarted |
| TripPacing.FoldFindsLeastInterval | gps/batching/BatchingAdapter.cpp:958-961 | With positive intervals the fold that uses zero for "none yet" finds the least of them |
| TripPacing.LeastIntervalExactly | gps/batching/BatchingAdapter.cpp:958-961 | Of any intervals it finds the least if and only if none is zero or the last one is |
| TripPacing.PaceKept | gps/batching/BatchingAdapter.cpp:787-1024 | No event makes the batch slower than a running trip asked for, and the engine falls out of step with it if and only if it refuses a faster start |
| TripPacing.PacedExactly | gps/batching/BatchingAdapter.cpp:787-1024 | A batch that runs with the least interval asked for goes on so except exactly when a faster start joins nobody because its query failed, or the last trip with that interval leaves others behind and the restart is refused |
| TripPacing.PaceRegained | gps/batching/BatchingAdapter.cpp:996-1001 | A batch that runs faster than asked for takes the least interval again with the next accepted stop after a session with its interval had left |
| TripPacing.NeverSlower | gps/batching/BatchingAdapter.cpp:749-1028 | In every run with positive intervals, through refused restarts, the batch never runs with a longer interval than a running trip asked for, nor does the engine as long as it refused no faster start |
| TripPacing.RefusedFasterIsSlow | gps/batching/BatchingAdapter.cpp:829-851 | A run in which the engine goes on with 10 when a trip asked for 5 |
| TripPacing.ZeroIntervalIsForgotten | gps/batching/BatchingAdapter.cpp:958-1001 | A fair run in which the engine goes on with 20 when a trip asked for 0 |
| TripPacing.IdleIsUnplanned | gps/batching/BatchingAdapter.cpp:900-939 | After every run without trips no distance and no interval is planned |
| TripSaving.StepKeepsSession | gps/batching/BatchingAdapter.cpp:749-920 | One event starts or ends a trip, saves its session or forgets it, exactly in the cases named |
| TripSaving.SessionsOverRuns | gps/batching/BatchingAdapter.cpp:753-769 | In every run a trip runs from its start until it is completed or stopped, and its session is saved if and only if it was started first and not stopped by command after its end |
| TripSaving.SavedExactly | gps/batching/BatchingAdapter.cpp:753-769 | In every run a running trip is saved if and only if it was started first, and a saved session has its trip if and only if that was neither completed nor stopped |
| TripSaving.StopServedExactly | gps/batching/BatchingAdapter.cpp:479-489 | After every run a stop command takes a running trip out if and only if it was started first |
| TripSaving.SecondTripCannotBeStopped | gps/batching/BatchingAdapter.cpp:479-489 | A fair run in which the stop of a trip started next to another one changes nothing |
| TripSaving.FaultsExactly | gps/batching/BatchingAdapter.cpp:886-890 | A run reads past the end of the trip table if and only if in it a client leaves with a saved session whose trip has ended |
| TripSaving.LeaverFaults | gps/batching/BatchingAdapter.cpp:866-890 | A fair run in which a client leaves after its trip was reported complete: the engine is told to stop the other client's batch, and the table is read past its end |
| BatchingAdapter.BatchingAdapter.ReportCompletedTrips | gps/batching/BatchingAdapter.cpp:647-707 | One report credits all sessions, erases the complete ones while iterating and re-plans if any left |
| BatchingAdapter.BatchingAdapter.SweepSessions | gps/batching/BatchingAdapter.cpp:667-696 | The erase-while-iterating loop leaves exactly the unfinished sessions, credited |
| BatchingAdapter.BatchingAdapter.RestartTripBatching | gps/batching/BatchingAdapter.cpp:924-1028 | Minimum folds over sessions decide distance, interval and restart; a successful restart rebases all offsets |
| BatchingAdapter.BatchingAdapter.StartTripBatchingMultiplex | gps/batching/BatchingAdapter.cpp:749-857 | Starting first or next to running sessions, with a query that may fail; only a first trip that the engine accepts is saved as a session |
| BatchingAdapter.BatchingAdapter.StopTripBatchingMultiplex | gps/batching/BatchingAdapter.cpp:860-920 | Stopping a trip; it fails exactly when there is no trip for the id, by then with the engine told to stop if one other trip is running |
| BatchingAdapter.BatchingAdapter.StopBatchingCommand | gps/batching/BatchingAdapter.cpp:457-494 | An id that is not saved is refused, a saved one with a trip is stopped, and a saved one without is forgotten |
| BatchingAdapter.BatchingAdapter.StopClientSession | gps/batching/BatchingAdapter.cpp:121-145 | A leaving client's saved session is stopped, which fails exactly when its trip is gone |
| Geofences.SaveKeepsIndexExactly | gps/geofence/GeofenceAdapter.cpp:644-661 | Saving keeps every key leading to its own fence if and only if no other key leads to the id given out |
| Geofences.StepKeepsConsistent | gps/geofence/GeofenceAdapter.cpp:50-78 | Every command, answer, client stop and restart keeps the index consistent when ids are reused only after their requests are answered |
| Geofences.IndexStaysConsistent | gps/geofence/GeofenceAdapter.cpp:644-686 | In every run a key leads to a fence that carries the key |
| Geofences.TablesStayInverse | gps/geofence/GeofenceAdapter.cpp:644-686 | In every run with fresh keys, through failures, restarts and clients that leave, each key leads to its fence and each fence is found through its key unless its client has left |
| Geofences.ReplayResaves | gps/geofence/GeofenceAdapter.cpp:141-176 | A restart and the positive answers to it, in any order, amount to saving the old fences afresh |
| Geofences.FullRestart | gps/geofence/GeofenceAdapter.cpp:141-176 | A fully successful restart brings back each fence exactly under its new hardware id, but for the paused flag, and makes the tables inverse |
| Geofences.RestartForgetsPauseExactly | gps/geofence/GeofenceAdapter.cpp:166-172 | After it recorded and real paused flags agree if and only if no fence was paused |
| Geofences.StopTakesIds | gps/geofence/GeofenceAdapter.cpp:56-76 | Stopping a client takes exactly its ids out while iterating and keeps requests on their way |
| Geofences.StopLeavesNoTrace | gps/geofence/GeofenceAdapter.cpp:50-78 | If the confirmations of all removals, in any order, come directly after the stop, neither table holds anything of the client and all other fences are as they were |
| Geofences.ReturnsExactly | gps/geofence/GeofenceAdapter.cpp:644-661 | When no id of a client is left, one step keeps that so, and its having no fence, if and only if it does not confirm an addition of the client |
| Geofences.LeavingExactly | gps/geofence/GeofenceAdapter.cpp:50-78 | One step keeps a client without ids, and the removal of each of its fences on its way, if and only if it neither confirms an addition of the client nor refuses the only removal of one of its fences |
| Geofences.LeavesNoTraceExactly | gps/geofence/GeofenceAdapter.cpp:50-78 | In whatever run follows the stop, that goes on if and only if there is no such step, and then neither table holds anything of the client once no removal is on its way |
| Geofences.LateAdditionReturns | gps/geofence/GeofenceAdapter.cpp:50-78 | A run in which an addition that was on its way at the stop saves the departed client's fence |
| Geofences.RestartReturns | gps/geofence/GeofenceAdapter.cpp:141-176 | A run in which an engine restart before the removal is confirmed adds the departed client's fence again, with nothing outstanding afterwards |
| Geofences.AgreementLostExactly | gps/geofence/GeofenceAdapter.cpp:688-710 | One step loses the agreement of paused flags exactly when it confirms a paused fence brought back by a restart |
| Geofences.PausesStayRight | gps/geofence/GeofenceAdapter.cpp:688-710 | In runs without such a step the flags agree throughout |
| GeofenceCommands.CommandsSend | gps/geofence/GeofenceAdapter.cpp:207-640 | A command puts exactly its own request on the way, for a known key, and touches nothing else |
| GeofenceCommands.AnswersExactly | gps/geofence/GeofenceAdapter.cpp:644-724 | What each kind of answer does to both tables and the engine, field by field; a refusal does nothing |
| GeofenceCommands.CommandTakesEffect | gps/geofence/GeofenceAdapter.cpp:319-640 | A removal, pause, resume or modification, once confirmed, takes effect on the fence of its key if that is still there and on no other, whatever happened between command and answer |
| GeofenceCommands.AdditionTakesEffect | gps/geofence/GeofenceAdapter.cpp:207-262 | An addition, once confirmed, is there with its options under the id given and found through its key, whatever happened in between |
| GeofenceAdapter.GeofenceAdapter.SaveGeofenceItem | gps/geofence/GeofenceAdapter.cpp:644-661 | Both tables get the fence, not paused |
| GeofenceAdapter.GeofenceAdapter.RemoveGeofenceItem | gps/geofence/GeofenceAdapter.cpp:663-686 | Both entries go, or neither if the key has left already |
| GeofenceAdapter.GeofenceAdapter.SetPaused | gps/geofence/GeofenceAdapter.cpp:688-710 | Only the paused flag of a known fence changes |
| GeofenceAdapter.GeofenceAdapter.ModifyGeofenceItem | gps/geofence/GeofenceAdapter.cpp:712-724 | Only the options of a known fence change |
| GeofenceAdapter.GeofenceAdapter.OnResponse | gps/geofence/GeofenceAdapter.cpp:230-262 | The answer to each kind of request makes exactly the machine's step |
| GeofenceAdapter.GeofenceAdapter.StopClientSessions | gps/geofence/GeofenceAdapter.cpp:50-78 | The client's ids vanish at once while iterating and one removal per id is sent |
| GeofenceAdapter.GeofenceAdapter.RestartGeofences | gps/geofence/GeofenceAdapter.cpp:141-176 | Both tables empty and one addition per fence is sent; with no fence nothing happens |
| GeofenceAdapter.GeofenceAdapter.ClientIds | gps/geofence/GeofenceAdapter.cpp:791-804 | The array prefix holds the client's own ids among the breached fences, in order |
| GeofenceAdapter.GeofenceAdapter.GeofenceBreach | gps/geofence/GeofenceAdapter.cpp:786-818 | One notification per concerned client with a callback |
| GeofenceAdapter.ConcernedIsOwn | gps/geofence/GeofenceAdapter.cpp:797-804 | A client is told exactly of its own fences |
| GeofenceAdapter.EachBreachReportedOnce | gps/geofence/GeofenceAdapter.cpp:786-818 | Ids delivered are as many as known breached fences of listening clients: none lost, none twice |
| GeofenceAdapter.ReportsExactly | gps/geofence/GeofenceAdapter.cpp:786-818 | Each client that listens and is concerned gets exactly one report, with its own ids; nobody else gets any |
| GeofenceAdapter.ConcernedInOrder | gps/geofence/GeofenceAdapter.cpp:797-804 | The ids come in the order of the breached fences, one for each of the client's own |
| DestroyHandshake.StepKeepsSane | gps/location/LocationAPI.cpp:242-302 | Every critical section keeps each missing confirmation matched by one message on its way, and each callback at one stage at most |
| DestroyHandshake.StepKeepsPromise | gps/location/LocationAPI.cpp:118-141 | Every step keeps a promised callback at exactly one stage, with no adapter unheard once it is no longer awaited |
| DestroyHandshake.CallbackAtMostOnce | gps/location/LocationAPI.cpp:118-141 | In every interleaving a callback runs at most once and the object is deleted exactly when it runs |
| DestroyHandshake.CallbackAfterAllAdapters | gps/location/LocationAPI.cpp:242-302 | A callback runs only for a client destroyed with one, and only after every adapter loaded at that time has confirmed since |
| DestroyHandshake.DrainedRunKeepsEveryPromise | gps/core/LocAdapterBase.cpp:374-401 | Once all removal messages are processed, exactly the promised callbacks have run |
| DestroyHandshake.UpdateExactly | gps/location/LocationAPI.cpp:315-383 | Updating callbacks keeps the handshake sane if and only if the client is registered, or was destroyed without a callback and none of its messages is on its way |
| DestroyHandshake.UpdateAfterDestroyIsEarly | gps/location/LocationAPI.cpp:315-383 | A run in which the second destroy's callback is due while a message is on its way |
| DestroyMessages.LoadedOnceExactly | gps/location/LocationAPI.cpp:171-185 | In every run an adapter is loaded, or given up, as the first attempt went, and never tried again |
| DestroyMessages.RegisteredExactly | gps/location/LocationAPI.cpp:159-302 | A client is registered if and only if it was created or updated and not destroyed since |
| DestroyMessages.ToldExactly | gps/location/LocationAPI.cpp:242-302 | In every run, with a callback or without, a removal message is on its way to exactly those adapters that were loaded when the client was destroyed and have not confirmed since |
| LocationAPI.ClearedBit | gps/location/LocationAPI.cpp:126-127 | Clearing a type bit takes exactly that adapter off the mask, which is zero exactly when none is left |
| LocationAPI.LocationAPIData.LoadInterfaces | gps/location/LocationAPI.cpp:171-185 | Wanted interfaces load once; a failed load is not tried again |
| LocationAPI.LocationAPIData.Destroy | gps/location/LocationAPI.cpp:242-302 | The destroy step: mask stored only with a callback and something to wait for, one message to each interface, immediate callback otherwise |
| LocationAPI.LocationAPIData.OnRemoveClientCompleteCb | gps/location/LocationAPI.cpp:118-141 | The confirmation step; the entry goes and the callback is due with the last bit |
| AdapterList.DroppedIsExact | gps/core/LocApiBase.cpp:241-274 | Moving the last adapter into the gap deletes exactly the given one |
| AdapterList.RunRefinesSet | gps/core/LocApiBase.cpp:230-274 | Under any mix of add and remove the list is a set of at most ten without duplicates, and the last message is a close exactly when it is empty |
| AdapterList.ClosedWhenEmptied | gps/core/LocApiBase.cpp:266-272 | One close message for each time the list becomes empty and none besides |
| AdapterList.SentExactly | gps/core/LocApiBase.cpp:230-274 | In every run the messages are an open for each adapter that joins, naming it, a close when the last one leaves and a reopen when another one does |
| LocApiBase.LocApiBase.AddAdapter | gps/core/LocApiBase.cpp:230-239 | Appends and opens, or does nothing when present, full or null |
| LocApiBase.LocApiBase.RemoveAdapter | gps/core/LocApiBase.cpp:241-274 | Removes in place, keeps the array compact, and closes or reopens |
| LocApiBase.LocApiBase.Deliver | gps/core/LocApiBase.h:54-57 | The walk to the first hole visits every registered adapter exactly once |
| LocApiBase.LocApiBase.DeliverToFirst | gps/core/LocApiBase.h:59-60 | The walk asks adapters in order and nobody after the first that handles |
| LocApiBase.LocApiBase.GetEvtMask | gps/core/LocApiBase.cpp:167-174 | An event is in the mask exactly when some registered adapter wants it and it is not excluded |
| SessionIds.IdInClosedForm | gps/core/LocAdapterBase.cpp:62-70 | The n-th id is 1 + (n mod (2^32 - 2)) |
| SessionIds.NeverReserved | gps/location/LocationAPIClientBase.cpp:38 | 0 and 0xFFFFFFFF are never given out |
| SessionIds.EqualExactlyAfterPeriods | gps/core/LocAdapterBase.cpp:62-70 | Two ids are equal if and only if a whole number of periods of 2^32 - 2 lies between them |
| SessionIds.LocAdapterBase.GenerateSessionId | gps/core/LocAdapterBase.cpp:64-70 | Increment with wrap and skip yields the next id of that sequence |

## Left out

How the model reads the source:

* Floats are reals; NaN in a configured level, weight or previous error is an absent value.
* Hash maps are walked in an order that is a parameter (`order`, `keys`, `clients`) or picked
  freely; the ordered map of trips is a sequence in ascending order of ids.
* `outRanks` is any fixed strict weak order on the elements; ranks that change while an element
  is in a heap are not modelled.
* AGPS subscribers are compared by handle, through a saved copy. `waitForCloseComplete` is a
  free parameter; the present caller always passes false (gps/gnss/Agps.cpp:593), so RELEASING
  is reached only by other callers.
* Distances of trips wrap at 2^32; the engine's counter is the odometer less its reading at the
  last restart.
* Event masks of adapters are sets of events.
* Identities of `LocationAPI` objects and of geofence keys are not reused; the engine's view of
  a geofence is what its answers have confirmed.
* Sysfs writes and `setMode` calls succeed.
* The table of supported power hints is filled between two passes; the source fills it entry by
  entry, without a lock, while the watcher may be in a pass.
* A trip message runs to completion together with the engine callbacks it chains; a client that
  leaves stops its saved sessions one after the other.

What the model does not contain:

* Which sensors a pass updates: polling delays, uevents, trigger sensors of virtual sensors and
  the minimal sleep time are abstracted to the set of sensors that have a reading.
* `PowerFiles` (power rails, release steps): its source is not part of this model; a release
  step is an arbitrary number per sensor and device.
* The branch of the constructor that clears a sensor with an unknown cooling device: the map
  access before it (thermal/thermal-helper.cpp:322) has thrown by then; likewise the
  thermal-disabled property and all reading of files and configuration.
* `prev_hint_severity` is kept beside the power hints, not in the sensor status.
* Message payloads of AGPS (type, APN, bearer) and the creation of the state machines.
* Batching sessions of other modes, among them the routine session as which a stop command saves
  a session without trip again if the engine refuses to stop it.
* Trip sessions after an engine restart (`restartSessions`), in-place updates of a running trip
  (a stop and a new start under the same id),
  a failing distance query when a trip stops, and the batching event-mask bookkeeping.
* Aggregated responses to geofence commands (`reportResponse`) and the pause request after a
  restart as a request of its own: whether it succeeded is part of the answer that precedes it.
* Memory reclamation: deletion of a client object is a history entry, not a lifetime.
* Field parsers, dump functions, binder and HIDL dispatch, loading of libraries and threads.

Contracts that state less than the source:

- ThermalPid.PidPowerCalculator: leaves out a configured controller level whose hot threshold is NaN, which the parser accepts, because the arithmetic that follows is NaN arithmetic; the same demand (`ThermalPid.Aimed`) stands in all statements about sensors with a controller.
- ThermalWindup.BoundedExactly: the bounded half leaves out negative hysteresis and a threshold without hysteresis that lies exactly where a band of the other side ends; there the two halves hold on their own: `ThermalWindup.WindsUp`, and `ThermalWindup.StaysInside` when no reading can take an unlimited error in even once.
- TripPlanning.ReplanAimsExactly: leaves out batches in which a trip has already ended without having been reported, where there is no next end to aim at.
- TripSafety.NeverEarly: leaves out reports that belong to another batch, which the message queue does not rule out; `TripSafety.ReportsInBatchExactly` says what they do.
- ThermalSensor.UpdateSensor: leaves out configurations with limits on only some of a sensor's bound devices, where the source ends with an uncaught exception, and weighted devices without any state, where it reads past an empty list.
- ThermalHelper.ThermalHelper.constructor: leaves out the same configurations, with which the source starts up and then fails at the first reading of such a sensor.
- TripPacing.NeverSlower: leaves out intervals of zero, for which it does not hold (`TripPacing.ZeroIntervalIsForgotten`); `TripPacing.LeastIntervalExactly` says what the fold then finds.
