# go-usb: the asynchronous core, the descriptor readers and the small state machines

A Dafny model of the parts of go-usb in which the order of events or of bytes decides what a caller sees.

- **Completion protocols.** On Windows one pump goroutine serves an I/O completion port and a map of pending
  transfers (`IocpProtocol`, `IocpTrace`, `IocpInvariant`): nothing is orphaned and Close returns (`IocpShutdown`), the
  return of Close means that the pump is gone (`IocpClose`), the pump gives up only when its drain window is over
  (`IocpDrain`), and a transfer's outcome is that of its own operation (`IocpOutcome`). On Linux one reap loop serves
  the device's URBs and a map of callbacks (`ReaperProtocol`, `ReaperInvariant`, `ReaperShutdown`, `ReaperOutcome`).
  Both are step relations: a step is one critical section or one system call, the kernel completes requests in any
  order, and theorems are about every run. `IocpObjects` and `ReaperObjects` give the same critical sections as methods
  of classes, tied to the steps.
- **Configuration descriptors.** `Descriptors` says what a byte string means (cut it into chunks, give each chunk to
  the interface before it, group by number). `ConfigUnmarshal` proves the single-pass parser against that,
  `ConfigAccounting` follows every byte, `ConfigGroups` treats the grouping as a stable sort, `ConfigEncode` gives the
  inverse, `ConfigLists` and `ConfigWalks` compare the parser with the flat walk of Windows, the flattening of macOS
  and the endpoint scan, `ConfigReaders` says what each does on every input, and `ConfigExamples` holds bytes on which
  they differ. Layouts are those of USB 2.0
  sections 9.6.3, 9.6.5 and 9.6.6 and USB 3.1 section 9.6.7.
- **Hotplug.** `Hotplug`, `HotplugWindows`, `HotplugLinux`, `Uevent` and `HotplugPump`: which callbacks every history
  of messages leads to, and how the Linux pump is stopped.
- **Queues and codecs.** `ReportQueue` (HID input reports), `Utf16` (string descriptors, sections 2.1 and 2.2 of
  RFC 2781), `IsoPackets` (slicing of isochronous buffers), `SysfsNames` (hub topology from names), with `Text` for
  decimal numbers and separators and `Core` for shared types.

`dafny verify dfyconfig.toml` checks everything.

## Where the code falls short of what it promises

- Windows `Submit` reads `closed` before it registers, without the handle's lock. `IocpShutdown.OrphansAreTheLateOnes`
  says exactly which transfers are lost, `LateRegistrationIsOrphaned` shows a run.
- A Linux URB can complete before its callback is registered. `ReaperShutdown.SkippedExactlyAtRegistration` says exactly
  when a completion is skipped, `SkippedUntilShutdown` when the callback runs after all, `CompletionCanBeSkipped` shows
  a run.
- Interface number 255 is parsed and then dropped (config.go:245). `ConfigGroups` and `ConfigWalks` state each result
  with that exception, as an equivalence; `ConfigExamples.Number255IsDropped` shows the bytes.
- `endpointInterface` names the first owner in byte order, `FindEndpoint` the owner with the least number
  (`ConfigWalks.ScanAgreesWithTree`; bytes in `ConfigExamples.ScanAndTreeDiffer`). An endpoint before the first
  interface scans as interface 0's (`ConfigExamples.LeadingEndpointScansAsZero`).
- The walkers stop at a chunk of length 1, where the parser goes on (`ConfigWalks.CutIsPrefix`; bytes in
  `ConfigExamples.StrayByteHidesInterface`).
- `sysfsPortFromName` ignores the parse error, so a port above 255 would read as 255 (`SysfsNames.PortIsLast`). USB hubs
  have at most 255 ports, so sysfs does not produce such names.
- The Linux watcher does not suppress duplicates. `HotplugLinux.TurnsIff` says exactly when that shows;
  `SnapshotAndQueuedAdd` shows a device whose add was queued behind the snapshot, contrary to the comment at
  hotplug_linux.go:153-156. The Windows watcher suppresses duplicates of messages but not those inside its snapshot
  (`HotplugWindows.TurnsIff`, `ListedTwiceArrivesTwice`).
- The HID callback does not look again before it drops, so a report may be dropped although a reader made room.
  `ReportQueue.DropIsNeedlessIff` says exactly when, `DropWithRoom` shows a run.
- `IsoPacketBufferSlices` on Windows divides by zero exactly without packets (`IsoPackets.ReportedSlices`); on Linux
  slicing panics exactly when some good packet reaches beyond the buffer (`IsochronousTransfer.IsoPacketBufferSlices`;
  packets in `OvergrownPacketPanics`).
- The two string decoders differ exactly when a surrogate pair precedes the first NUL (`Utf16.DecodersAgreeIff`; units
  in `DecodersDifferOnPair`).

## Model

| member | source | states |
|---|---|---|
| `IocpInvariant.ReachableInv` | device_windows.go:719-858 | in every reachable state of submits, completions, pump and Close the pending map, the transfers, the port queue, the pump's position and the history of registrations agree |
| `IocpInvariant.PendingMapInvariant` | device_windows.go:719-749 | each pending entry sits under its transfer's own OVERLAPPED, that transfer is submitted and not done, and no transfer has two entries |
| `IocpInvariant.AcceptedOnlyAfterEnding` | async_windows.go:162-179 | Submit accepts a transfer only when its previous registration was ended by one dispatch or one unregistration, and registrations are bracketed throughout |
| `IocpInvariant.LookupHits` | device_windows.go:836-841 | a real completion always finds its transfer in the map, and that transfer is in flight |
| `IocpTrace.RegistrationIsClosed` | device_windows.go:719-749 | in a bracketed history a registration that is not open has exactly one ending |
| `IocpShutdown.NoOrphan` | device_windows.go:779-858 | when the pump returns other than by the drain deadline, the map was empty at its last check, and every transfer registered before that check was dispatched or unregistered exactly once; `IocpDrain.DeadlineExit` says when the other return can happen |
| `IocpShutdown.EndingHasRegistration` | device_windows.go:836-852 | every dispatch and every unregistration ends one earlier registration |
| `IocpShutdown.OrphansAreTheLateOnes` | device_windows.go:812-858 | after such a return a transfer is still awaited if and only if it was registered after the last check |
| `IocpShutdown.OrphanStaysOrphan` | device_windows.go:779-780 | once the pump is gone no step completes a transfer still awaited |
| `IocpShutdown.LateRegistrationIsOrphaned` | async_windows.go:168-198 | a run in which Submit passes its unlocked closed check, the pump exits, and the registration lands afterwards and is never completed |
| `IocpShutdown.StepAfterCloseDecreases` | device_windows.go:785-856 | after closed is set, and while the port is open, every step except the clock's lowers a measure of submits in flight, operations, queued packets, wait failures, pump and closer positions and drain window |
| `IocpShutdown.WorkAfterCloseIsBounded` | device_windows.go:785-856 | so after closed is set, and while the port is open, a run has boundedly many steps other than the clock's |
| `IocpShutdown.CloseIsNeverStuck` | device_windows.go:269-282 | until Close has joined the pump some step that lowers the measure can be taken |
| `IocpShutdown.CloseReturns` | device_windows.go:253-314 | from every reachable state in which Close waits for the pump, or is past its wait with the pump gone, the return of Close is reachable within the measure, and the pump has exited by then |
| `IocpShutdown.RegistersOverPump` | device_windows.go:719-741 | over a running pump a submission in progress is registered under its own OVERLAPPED, never refused |
| `IocpClose.CloseJoinsPump` | device_windows.go:253-314 | in every run, once a Close over a running pump has begun, it waits or the pump has exited; the handles are freed only after the exit, and the port is closed exactly when Close has finished |
| `IocpClose.ClosedLeavesNoOrphan` | device_windows.go:253-314 | when such a Close is past its wait the pump has exited, and each registration made before Close began was dispatched or unregistered exactly once, unless the two-second window that opened after Close began ran out with something pending |
| `IocpClose.AwaitedAtCloseIsDone` | device_windows.go:253-314 | a transfer awaited when such a Close begins is done once Close is past its wait, with the same single exception |
| `IocpClose.WakeOvertakesCompletion` | device_windows.go:273-281 | a run in which the wake packet overtakes a cancelled operation: the pump drains, the transfer gets its error, and then Close returns |
| `IocpDrain.WindowAndCount` | device_windows.go:785-856 | in every reachable state a bounded wait ends within a millisecond of the window's end, an exit by deadline happens in a drain whose window is over to within that millisecond, and a pump that drains on found something pending when it last counted |
| `IocpDrain.DrainHasBegun` | device_windows.go:824-831 | a draining pump began at one step, on a closed handle with something pending and not draining before; its deadline is that moment plus two seconds and has not moved since |
| `IocpDrain.DeadlineExit` | device_windows.go:785-809 | the pump gives up on pending operations only after draining two seconds less at most a millisecond, and with something pending at its last count |
| `IocpOutcome.NoOutcomeBeforeDone` | async_windows.go:172-179 | in every reachable state a transfer that is not done shows no bytes and no error, and one that is done is outside Submit and not in flight |
| `IocpOutcome.OutcomeIsOwnCompletion` | device_windows.go:844-851 | a done transfer carries the byte count and error of the one completion the kernel made of its own OVERLAPPED since its operation was last started |
| `IocpOutcome.DoneIffNotified` | device_windows.go:844-851 | a transfer is done if and only if the pump has notified it since Submit last accepted it |
| `IocpProtocol.WaitLimit` | device_windows.go:786-796 | the wait is unbounded until draining, then ends within a millisecond of the window's end on either side, and is at least a millisecond long |
| `IocpObjects.AsyncTransfer.BeginSubmit` | async_windows.go:163-179 | Submit's first critical section refuses an in-flight transfer and a closed handle without a change, and otherwise makes the step Accept: in flight, not done, no bytes, no error |
| `IocpObjects.AsyncTransfer.AbortSubmit` | async_windows.go:192-218 | a failed Submit clears submitted and nothing else |
| `IocpObjects.AsyncTransfer.Complete` | device_windows.go:844-851 | the pump's notification stores the byte count and the error, sets done and clears submitted, as the step PumpDispatch does |
| `IocpObjects.AsyncTransfer.Status` | async_windows.go:138-151 | once done: completed exactly without an error, timed out exactly on the timeout error |
| `IocpObjects.DeviceHandle.RegisterAsyncCompletion` | device_windows.go:719-741 | registration starts the pump exactly once, fails only if the port cannot be created, keeps keys matching, and makes the step RegisterOk or RegisterFail |
| `IocpObjects.DeviceHandle.UnregisterAsyncCompletion` | device_windows.go:745-749 | removes that entry only |
| `IocpObjects.DeviceHandle.TakePending` | device_windows.go:836-842 | gives the transfer registered under the address, removes it, and counts what is left |
| `IocpObjects.DeviceHandle.BeginClose` | device_windows.go:254-264 | only the first call closes, and it joins exactly when a pump runs |
| `IocpObjects.DeviceHandle.IocpPump` | device_windows.go:779-858 | the loop on its own: each registered transfer is told the first completion of its operation and no other, the rest stay registered and untouched, and it ends with nothing pending on a closed handle or when the drain window that began at a nil packet is over |
| `IocpObjects.TellIsFirst` | device_windows.go:836-852 | of the completions in a sequence of rounds each registered operation is told its first |
| `IocpObjects.FirstCompletionIff` | device_windows.go:836-852 | the first completion of an operation is the one in the earliest round that completes it, and there is none exactly if no round does |
| `IocpObjects.DeviceHandle.Dispatch` | device_windows.go:836-852 | removes the transfer registered under the address, gives it the byte count and the error, done and no longer submitted, and touches no other |
| `IocpObjects.DeviceHandle.HandleNil` | device_windows.go:805-834 | a wait without an OVERLAPPED: give up on a timeout while draining, exit when closed and nothing is pending, else start the drain window once |
| `IocpObjects.Pump.NextWait` | device_windows.go:786-796 | gives up exactly at the drain deadline, else waits within the window |
| `IocpObjects.Pump.OnClosed` | device_windows.go:819-831 | on a nil packet after closing: exit exactly if nothing is pending, start the drain window at most once |
| `IocpObjects.Pump.AfterDispatch` | device_windows.go:854-856 | after a completion: an exit leaves a closed handle with nothing pending, and going on means that it does not drain or that something is pending |
| `ReaperInvariant.ReachableInv` | device_linux.go:91-315 | in every reachable state map, callbacks, transfers, loop, wake pipe and closer agree |
| `ReaperShutdown.CallbacksConserved` | device_linux.go:143-315 | the registered callbacks are those called, those in the map and the one in the loop's hand, without overlap, none called twice |
| `ReaperShutdown.AllCalledWhenLoopIsGone` | device_linux.go:221-230 | when the loop is not running, or Close has returned, every registered callback has been called exactly once |
| `ReaperShutdown.NoneSubmittedWhenLoopIsGone` | device_linux.go:257-267 | and no transfer outside Submit is left marked as submitted |
| `ReaperShutdown.SkippedUntilShutdown` | device_linux.go:299-305 | a callback whose URB was reaped before it was registered is called exactly by the step that ends reaping, and is not lost before |
| `ReaperShutdown.SkippedExactlyAtRegistration` | device_linux.go:299-305 | a step makes a waiting callback lose its completion if and only if it is its own registration with the URB already gone from kernel, ready list and loop |
| `ReaperShutdown.WaitingIsLiveOrSkippedSinceRegistration` | device_linux.go:278-315 | in every run a waiting callback was skipped at its registration, and has been since, if and only if its URB is not with the kernel, ready, or just reaped |
| `ReaperShutdown.CompletionCanBeSkipped` | device_linux.go:299-305 | a run in which that happens |
| `ReaperShutdown.RegistrationIsFresh` | async_linux.go:142-186 | while Submit is between the kernel call and the registration, the handle is open, the map is not nil, the key is not in it, and reaping says whether a loop runs |
| `ReaperShutdown.NothingStartsAfterClose` | device_linux.go:91-100 | after closed is set nothing is registered and no loop starts |
| `ReaperShutdown.NoLostWakeUp` | device_linux.go:117-123 | while Close waits and the loop is parked, the pipe holds a byte and the loop can wake |
| `ReaperShutdown.NeverParksAgain` | device_linux.go:216-254 | once the loop left its wait after closed was set it never parks again |
| `ReaperShutdown.StepAfterCloseDecreases` | device_linux.go:216-315 | after closed is set every step lowers a measure |
| `ReaperShutdown.WorkAfterCloseIsBounded` | device_linux.go:216-315 | so every run after closed is set is finite, with a bound |
| `ReaperShutdown.CloseIsNeverStuck` | device_linux.go:117-132 | until Close returns some step can be taken |
| `ReaperShutdown.CloseReturns` | device_linux.go:91-133 | from every reachable state in which Close has begun its return is reachable within the measure |
| `ReaperOutcome.SubmittedIsNotReaped` | async_linux.go:182-183 | in every reachable state a submitted transfer is not reaped, so a wait after a resubmission waits for the new round |
| `ReaperOutcome.ReapedIffNotified` | async_linux.go:186-211 | a transfer is reaped if and only if its callback was called, by its own reaping or by a failure or shutdown, since its URB last went to the kernel |
| `ReaperOutcome.PipeHoldsOneWake` | device_linux.go:117-123 | the wake pipe holds at most the one byte of Close, and none before Close has written it |
| `ReaperOutcome.WakeEmptiesPipe` | device_linux.go:241-250 | a loop that wakes leaves the pipe empty |
| `ReaperOutcome.NilIffShutDown` | device_linux.go:216-230 | the map of callbacks is nil if and only if the loop has shut down |
| `ReaperOutcome.RoundEmptiesReady` | device_linux.go:278-315 | in every run a loop at work on what it woke for looks at closed again only after it found nothing ready |
| `ReaperOutcome.RegistersOverLoop` | device_linux.go:143-160 | over a running loop a submitted URB is registered, never refused |
| `ReaperObjects.AsyncTransfer.MarkSubmitted` | async_linux.go:182-183 | marks the transfer as submitted and not reaped, and leaves the outcome of the round before |
| `ReaperObjects.AsyncTransfer.Callback` | async_linux.go:186-211 | stores the outcome, takes the length only on success, and makes the transfer submittable again |
| `ReaperObjects.DeviceHandle.RegisterURBCompletion` | device_linux.go:143-160 | adds the entry, starts a loop exactly when none runs, fails without a trace when the pipe cannot be made |
| `ReaperObjects.DeviceHandle.TakeReaped` | device_linux.go:299-307 | removes the reaped URB's entry and gives its transfer, or leaves the map alone |
| `ReaperObjects.DeviceHandle.NotifyReaped` | device_linux.go:299-313 | notifies the reaped URB's transfer and no other: reaped, not submitted, an error exactly for a non-zero status, and the length only without one |
| `ReaperObjects.FirstUrbIff` | device_linux.go:278-315 | the first answer for a URB is the earliest one about it |
| `ReaperObjects.DeviceHandle.FireAll` | device_linux.go:221-267 | notifies every registered transfer with the error and leaves a nil map on shutdown, an empty one on failure |
| `ReaperObjects.DeviceHandle.ReapUntilStop` | device_linux.go:278-315 | the draining loop tells each registered transfer its first reaped outcome, once, and leaves the others unchanged |
| `ReaperObjects.DeviceHandle.DrainReapedURBs` | device_linux.go:278-315 | with the failure path: the transfers not reaped are told the failure exactly when reaping stopped |
| `ReaperObjects.DeviceHandle.BeginClose` | device_linux.go:92-100 | only the first call closes, and it joins exactly if a loop was ever started |
| `ConfigUnmarshal.FoldMeans` | config.go:113-243 | the single pass with its accumulators and look-ahead computes the settings that the chunks spell, the first error and the leading leftovers |
| `ConfigUnmarshal.TakeEndpoint` | config.go:167-204 | an endpoint takes exactly a following companion of at least six bytes, and the walk goes on behind it |
| `ConfigUnmarshal.ConfigDescriptor.Walk` | config.go:105-229 | the loop, on every byte string: it terminates, reads in bounds, and fills the map with exactly the settings by number |
| `ConfigUnmarshal.ConfigDescriptor.Sort` | config.go:244-249 | the groups in ascending order of number, 255 left out |
| `ConfigUnmarshal.ConfigDescriptor.Unmarshal` | config.go:90-252 | on every byte string and receiver: the error and the new fields; a fresh receiver holds Parse(data) |
| `ConfigUnmarshal.ConfigDescriptor.Interface` | config.go:257-265 | the first interface with the number, or none |
| `ConfigUnmarshal.ConfigDescriptor.InterfaceAltSetting` | config.go:268-280 | the first setting of that interface with the alternate number, or none |
| `ConfigUnmarshal.ConfigDescriptor.FindEndpoint` | config.go:283-294 | the first place, interface by interface, where the address occurs, or none anywhere |
| `ConfigAccounting.EveryChunkHasItsPlace` | config.go:113-243 | on success every walked byte lies in one chunk, every chunk has one role that names an existing setting, Extra and each setting are made of exactly the chunks with their role, in order, each endpoint of its own chunk and the companion chunk right after it, and the parts together have all chunks |
| `ConfigAccounting.PartsFixSetting` | config.go:167-204 | the chunks fix the setting, down to which endpoint holds which companion |
| `ConfigAccounting.NoChunkIsLost` | config.go:113-229 | no role names a setting that does not exist, and no chunk is counted twice or not at all |
| `ConfigAccounting.CompanionFollowsEndpoint` | config.go:184-202 | a companion's chunk comes right after the chunk of an endpoint of the same setting |
| `ConfigAccounting.ChunksCover` | config.go:115-125 | the chunks laid end to end are the bytes walked |
| `ConfigEncode.RoundTrip` | config.go:90-252 | parsing the encoding of a well-formed tree gives the tree back, companions included |
| `ConfigEncode.ParsedIsWellFormed` | config.go:90-252 | every tree parsed from bytes without one-byte chunks is well-formed |
| `ConfigEncode.WellFormedIffParsed` | config.go:90-252 | the well-formed trees are exactly the parse results of such bytes |
| `ConfigEncode.ChunksOfFlatten` | config.go:115-125 | cutting a concatenation of whole chunks gives the chunks back |
| `ConfigEncode.GroupsOfUngroup` | config.go:244-249 | grouping the settings of ascending groups gives the groups back |
| `ConfigGroups.GroupsAscend` | config.go:244-249 | after parsing, interfaces ascend strictly by number and each holds all settings of its number |
| `ConfigGroups.NumberedKeepsOrder` | config.go:128-145 | settings of one number stand in byte order |
| `ConfigGroups.GroupingPermutes` | config.go:244-249 | the grouped settings are those not numbered 255, each as often as before |
| `ConfigGroups.GroupingIsStable` | config.go:244-249 | within each number the order is unchanged |
| `ConfigGroups.GroupingIsIdentity` | config.go:244-249 | grouping moves nothing if and only if numbers never decrease and none is 255 |
| `ConfigGroups.InterfaceFoundIff` | config.go:257-265 | on a parsed tree Interface finds nothing if and only if the number never occurred or is 255 |
| `ConfigGroups.AltSettingFoundIff` | config.go:268-280 | on a parsed tree InterfaceAltSetting finds nothing if and only if the pair never occurred or the number is 255 |
| `ConfigWalks.ReadFlat` | transfer_windows.go:418-483 | rejects short data and otherwise reads the header and two flat lists |
| `ConfigWalks.WalkFlat` | transfer_windows.go:433-480 | the flat walk terminates and lists the long enough interface and endpoint chunks it visits, in order |
| `ConfigWalks.Flattened` | compat_darwin.go:236-276 | the nested loops list the tree's settings and endpoints in order |
| `ConfigWalks.EndpointInterface` | device_windows.go:877-901 | the scan stops at the first endpoint with the address and gives the current interface |
| `ConfigWalks.CutIsPrefix` | transfer_windows.go:434-445 | the walkers visit exactly the parser's chunks before the first chunk that is its length byte alone |
| `ConfigWalks.FlatWalkReads` | transfer_windows.go:433-480 | on standard bytes the flat walk reads every setting in byte order, 255 included, and every endpoint |
| `ConfigWalks.FlatWalkAgreesWithTree` | compat_darwin.go:242-275 | flat walk and flattened tree: same header, same order per number, same interfaces if and only if none is numbered 255, same list if and only if moreover numbers never decrease; the same endpoints if and only if none precedes the first interface and number 255 has none, the same endpoint list if moreover the numbers of settings with endpoints never decrease, and, with no endpoint shared between interfaces, only then |
| `ConfigLists.SameEndpointsIff` | compat_darwin.go:260-271 | grouping keeps the endpoints, as a multiset, if and only if number 255 has none |
| `ConfigLists.SameEndpointListIff` | compat_darwin.go:260-271 | unshared endpoints stay in place if and only if the settings that have any never decrease in number and none is 255 |
| `ConfigLists.SharedEndpointHidesOrder` | compat_darwin.go:260-271 | two interfaces out of order whose shared endpoint leaves the endpoint list unchanged |
| `ConfigWalks.ScanFindsFirstOwner` | device_windows.go:877-901 | the scan gives the first owner in byte order, or 0 when an endpoint before the first interface has the address |
| `ConfigWalks.ScanAgreesWithTree` | device_windows.go:877-901 | the scan finds what FindEndpoint finds; it finds more if and only if all owners are numbered 255; FindEndpoint's owner has the least number, and both agree if and only if the first owner has it |
| `ConfigWalks.TreeFindsLeastOwner` | config.go:283-294 | FindEndpoint picks the owner with the least number below 255 |
| `ConfigWalks.UnsharedEndpoint` | device_windows.go:877-901 | they agree on an endpoint that one interface owns |
| `ConfigExamples.Number255IsDropped` | config.go:244-249 | bytes with an interface numbered 255: no error, no interface in the tree, one in the flat list |
| `ConfigExamples.StrayByteHidesInterface` | transfer_windows.go:442-444 | bytes with a one-byte chunk before an interface: the parser finds it, the walkers do not |
| `ConfigExamples.ScanAndTreeDiffer` | device_windows.go:877-901 | bytes with one endpoint in interfaces 1 and 0: the scan names 1, FindEndpoint 0 |
| `ConfigExamples.LeadingEndpointScansAsZero` | device_windows.go:882-898 | bytes with an endpoint before any interface: the scan names interface 0, the tree has none |
| `ConfigReaders.CutIff` | transfer_windows.go:433-480 | on every input and with every limit the walkers visit exactly the chunks that follow each other from the start, each before the limit, whole and of two bytes or more, up to where there is none |
| `ConfigReaders.FlatListsOf` | transfer_windows.go:446-476 | the flat lists take, in byte order, the interface chunks of at least 9 bytes and the endpoint chunks of at least 7 |
| `ConfigReaders.FirstOwnerIff` | device_windows.go:877-901 | on every list of chunks the scan finds the interface number current at the first endpoint chunk of at least 3 bytes with the address, interface chunks shorter than 9 bytes not counting |
| `ConfigReaders.FirstErrorIff` | config.go:127-175 | parsing fails exactly at the first interface shorter than 9 bytes or, behind an interface, endpoint shorter than 7, with an error that names its length |
| `ConfigReaders.SampleParses` | config.go:90-252 | 37 bytes with every kind of descriptor and the tree they parse to, field by field |
| `HotplugWindows.TurnsIff` | hotplug_windows.go:228-249 | callbacks per path alternate Arrived, Left from Arrived on with equal devices, for all later messages, if and only if no reported device of the snapshot shares its path with a later one |
| `HotplugWindows.DistinctKeysTakeTurns` | hotplug_windows.go:328-339 | one direction of it, for one path and message sequence |
| `HotplugWindows.SharedKeyBreaksTurns` | hotplug_windows.go:328-339 | the other, with the messages that break the turns |
| `HotplugWindows.ListedTwiceArrivesTwice` | hotplug_windows.go:331-339 | a device that the snapshot lists twice arrives twice |
| `HotplugWindows.HistorySound` | hotplug_windows.go:228-249 | in every history each Left comes right after an Arrived of the same device |
| `HotplugWindows.ReceiveElsewhere` | hotplug_windows.go:215-250 | a message that is not of device type 5 with event 0x8000 or 0x8004 for the key changes nothing there and calls back nothing for it |
| `HotplugWindows.ReceiveHere` | hotplug_windows.go:227-249 | an arrival is remembered and reported only if nothing is in place there, a removal forgotten and reported only if something is, both subject to the filter |
| `HotplugWindows.InPlaceIff` | hotplug_windows.go:215-250 | after any messages a key is in place if and only if the latest message about it is an arrival, or none is and it was in place before |
| `HotplugWindows.HotplugHandle.OnDeviceChange` | hotplug_windows.go:215-250 | the message handler updates the seen map and makes the callback as Receive says |
| `HotplugWindows.HotplugHandle.DeliverSnapshot` | hotplug_windows.go:328-339 | the snapshot loop |
| `HotplugWindows.HotplugHandle.Pump` | hotplug_windows.go:325-364 | snapshot and message loop together; with it callbacks take turns |
| `HotplugWindows.HotplugHandle.Deregister` | hotplug_windows.go:177-192 | only the first call closes the window |
| `Hotplug.MatchesIff` | hotplug_windows.go:194-202 | both identifiers must agree, zero agreeing with every one |
| `Uevent.ParseUevent` | hotplug_linux.go:109-122 | the loop over tokens, a later field replacing an earlier one of the same name |
| `Uevent.PayloadRoundTrip` | hotplug_linux.go:109-122 | parsing a payload gives its variables, the header line skipped |
| `HotplugLinux.PayloadMeans` | hotplug_linux.go:251-271 | an add or remove payload is understood as such with its bus and address, wherever its variables stand and however numbers are padded |
| `HotplugLinux.IgnoredIff` | hotplug_linux.go:251-289 | a payload asks for nothing if and only if its last SUBSYSTEM is not usb, its last DEVTYPE is not usb_device, BUSNUM or DEVNUM does not spell a number below 256, or its last ACTION is neither add nor remove |
| `HotplugLinux.OtherActionIsIgnored` | hotplug_linux.go:268-288 | so any other action, such as bind, is ignored |
| `HotplugLinux.FindIff` | hotplug_linux.go:297-313 | the device found is the first at the place in the first listing or, if that was made and has none, in the second |
| `Text.ParseOkIff` | hotplug_linux.go:259-266 | a number is accepted if and only if it is one or more digits spelling less than 256, and is read as what they spell |
| `HotplugLinux.KeyInjective` | hotplug_linux.go:101-103 | different places have different keys |
| `HotplugLinux.HistorySound` | hotplug_linux.go:268-288 | each Left comes right after an Arrived of the same device for that place |
| `HotplugLinux.SeenIsLatestAdd` | hotplug_linux.go:268-288 | in place is the device of the latest signal about the place, if that was an add |
| `HotplugLinux.LeftCarriesLatestAdd` | hotplug_linux.go:279-288 | a removal reports exactly the device of the latest add, if it matches |
| `HotplugLinux.TurnsIff` | hotplug_linux.go:268-288 | under one filter callbacks take turns if and only if no device reported at the place is replaced before it left with a device reported there then or later |
| `HotplugLinux.TurnsUnderEveryFilterIff` | hotplug_linux.go:268-288 | callbacks take turns under every filter if and only if no two adds for the place, the snapshot's included, come without a removal between |
| `HotplugLinux.SnapshotAndQueuedAdd` | hotplug_linux.go:153-164 | a device in the snapshot whose add was queued arrives twice |
| `HotplugLinux.HotplugHandle.HandleUevent` | hotplug_linux.go:251-289 | the handler does what the payload means, and nothing when its action is neither add nor remove |
| `HotplugLinux.HotplugHandle.FindDevice` | hotplug_linux.go:297-313 | two attempts, the first device at the place, nothing after a failed listing |
| `HotplugLinux.HotplugHandle.DeliverSnapshot` | hotplug_linux.go:157-164 | the snapshot is a sequence of adds |
| `HotplugPump.NoLostWakeUp` | hotplug_linux.go:77-89 | while Deregister waits and the pump is parked, or is about to park on an old reading of the flag, the pipe holds a byte and the pump wakes |
| `HotplugPump.NeverParksAgain` | hotplug_linux.go:211-248 | once the pump left its wait, or read the flag, after the flag was set it never parks again |
| `HotplugPump.ReadEmptiesPipe` | hotplug_linux.go:228-232 | the pipe never holds more than the one byte of Deregister, and the pump's read takes it |
| `HotplugPump.RoundEmptiesSocket` | hotplug_linux.go:227-247 | a pump that wakes with uevents on the socket looks at the flag again only after the socket was empty |
| `HotplugPump.WorkIsBounded` | hotplug_linux.go:211-248 | after the flag is set the number of steps is bounded by what was left and the uevents still to come |
| `HotplugPump.DeregisterReturns` | hotplug_linux.go:77-89 | from every reachable state after the flag is set Deregister's return is reachable within the measure |
| `ReportQueue.NewestIsNeverLost` | hid_darwin.go:567-581 | the innermost default is never taken, and the retry puts the report just delivered in last, within the capacity |
| `ReportQueue.RunKeepsInv` | hid_darwin.go:567-581 | every delivered report has left the queue, is in it or in the callback's hand, in delivery order |
| `ReportQueue.ReadsAreInOrder` | hid_darwin.go:339-360 | reports read are a subsequence of those delivered |
| `ReportQueue.QueueIsLatest` | hid_darwin.go:567-581 | between callbacks the queue is exactly the latest deliveries that have not left |
| `ReportQueue.DropsAreBounded` | hid_darwin.go:570-581 | the first 32 deliveries cost no drop, each later one at most one |
| `ReportQueue.DropIsNeedlessIff` | hid_darwin.go:570-581 | the drop to come is needless if and only if readers or flushes took something since the queue was seen full, and there is nothing to drop if and only if they took all 32 |
| `ReportQueue.DropWithRoom` | hid_darwin.go:570-581 | a run in which that happens |
| `ReportQueue.KeepsTheLatest` | hid_darwin.go:567-581 | with nobody reading the queue is the suffix, of 32 reports or all of them if there are fewer, of everything delivered |
| `ReportQueue.HidCollection.OnReport` | hid_darwin.go:558-582 | the uninterrupted callback puts the new report last: behind all that were queued if fewer than 32 were, else behind all but the oldest; negative lengths are ignored |
| `ReportQueue.HidCollection.Flush` | hid_darwin.go:477-485 | empties the queue |
| `ReportQueue.HidCollection.ReadReport` | hid_darwin.go:339-360 | takes the oldest report, cut to the caller's space, or fails |
| `Utf16.Utf16Decode` | usbwire.go:61-79 | the loop computes Decode |
| `Utf16.DecodeEncode` | usbwire.go:61-79 | decoding inverts UTF-16 encoding for every sequence of non-zero scalar values |
| `Utf16.EncodeDecode` | usbwire.go:61-79 | encoding inverts decoding up to the first NUL, on every input |
| `Utf16.DecodeStringDescriptor` | usbwire.go:39-57 | the byte loop computes StringOf |
| `Utf16.DescriptorRoundTrip` | usbwire.go:39-57 | a descriptor of up to 126 units decodes to its text |
| `Utf16.TruncatedRead` | usbwire.go:39-57 | a descriptor cut off anywhere decodes exactly the units that arrived whole |
| `Utf16.StringOfUnits` | usbwire.go:39-57 | whatever the length byte says, the whole units between the second byte and the end it names, or the end of the descriptor if sooner, are decoded; an odd byte is dropped |
| `Utf16.StringOfShort` | usbwire.go:40-50 | a descriptor or a length byte below two is the empty string |
| `Utf16.Utf16ToRunes` | device_windows.go:123-132 | one rune for each unit up to NUL |
| `Utf16.DecodersDifferOnPair` | device_linux.go:1214-1223 | the units of U+1F600 decode to it and to two replacement characters |
| `Utf16.DecodersAgreeIff` | device_linux.go:1214-1223 | both decoders give the same string if and only if no surrogate pair precedes the first NUL |
| `IsoPackets.IsochronousTransfer.IsoPacketBuffer` | isochronous_linux.go:302-332 | the packet's data at the sum of the lengths before it, or its error |
| `IsoPackets.IsochronousTransfer.IsoPacketBufferSlices` | isochronous_linux.go:338-358 | the one-pass slices equal the per-packet ones, and panic if and only if one of those does |
| `IsoPackets.IsochronousTransfer.ResetPackets` | isochronous_linux.go:136-144 | Submit gives every descriptor the packet size and clears its result |
| `IsoPackets.IsochronousTransfer.OnCompletion` | isochronous_linux.go:161-188 | takes over all packets and their wrapped sum on success, nothing on error; the sum is exact if and only if the true total is below 2^31, and for buffers below 2 GiB |
| `IsoPackets.TotalOfChanged` | isochronous_linux.go:176-185 | the total counts every packet once: changing one packet changes the total by the difference |
| `IsoPackets.TotalOfEqual` | isochronous_linux.go:176-185 | and it is n times the share when each packet holds the same |
| `IsoPackets.SignedMeans` | isochronous_linux.go:176-185 | the wrapped sum is in the signed 32-bit range, congruent to the true one, and equal to it exactly in range |
| `IsoPackets.IsochronousTransfer.WhereSlicesLie` | isochronous_linux.go:302-332 | slices lie at multiples of the packet size, in bounds, for packets within their length |
| `IsoPackets.SlicesAreDisjoint` | isochronous_linux.go:302-358 | slices of different packets do not overlap while none outgrows its length |
| `IsoPackets.SlicesAreInBounds` | isochronous_linux.go:302-358 | and exist exactly for the good packets |
| `IsoPackets.OvergrownPacketPanics` | isochronous_linux.go:331 | two packets of which the second outgrew its length: asking for it is out of bounds |
| `IsoPackets.ReportedBuffer` | isochronous_windows.go:202-210 | in bounds for every reported length |
| `IsoPackets.ReportedSlices` | isochronous_windows.go:213-221 | the same slices for all packets; panics if and only if there are none |
| `IsoPackets.ReportedAreDisjoint` | isochronous_windows.go:213-221 | slices never overlap, whatever is reported |
| `IsoPackets.PlatformsAgree` | isochronous_windows.go:202-221 | for packets within one fixed size both systems give the same slices |
| `SysfsNames.ParentIsHub` | sysfs_linux.go:200-215 | the parent of a device's name is the name of its hub, and a root hub has none |
| `SysfsNames.PortIsLast` | sysfs_linux.go:180-195 | the port function gives the last port, or 255 when it does not fit in a byte |
| `SysfsNames.PortOfAnyName` | sysfs_linux.go:180-195 | of any name with a dash and digits at its end, kernel-made or not, the port is the number behind the last dot, or 255 if too large, or 0 if there are no digits |
| `SysfsNames.NoDash` | sysfs_linux.go:180-215 | a name without a dash has no parent and port 0 |
| `SysfsNames.RootIsReached` | sysfs_linux.go:200-215 | going up from parent to parent reaches the root hub in exactly as many steps as there are ports |
| `SysfsNames.NameInjective` | sysfs_linux.go:200-215 | no two places have the same name |
| `SysfsNames.DeviceList` | compat_linux.go:33-65 | the two passes give every device the address of the last listed device with its parent's name |
| `SysfsNames.HubAddressIsHub` | compat_linux.go:53-62 | for devices at distinct places that is the device at the hub's place, or 0 if it is not listed |

## Left out

- IocpProtocol: `Submit`'s unlocked read of `closed` (async_windows.go:168) is one step with the marking it is nested
  in; registrations that land after the pump's last check are allowed and characterised, not excluded.
- IocpProtocol: failures of the wait call while the port is open are finite in number.
- IocpObjects.DeviceHandle.IocpPump: the loop as one method runs through given rounds with nobody registering in
  between; interleavings are the business of the step relation.
- ReaperObjects: the outer loop of `reapLoop` is steps of `ReaperProtocol` only; its draining loop and its ways to end
  are methods.
- IocpObjects.AsyncTransfer.Status: the wait on the condition variable is a precondition (`done`); `Wait`,
  `WaitWithTimeout`, `Cancel` and `IsCompleted`, which reads one flag, are not part of this model, nor is the HID branch
  of `Submit`.
- IocpShutdown.CloseReturns: reachability within a bound, together with `StepAfterCloseDecreases`; scheduling fairness
  is not modelled.
- ReaperProtocol: `failReaping` and the loop's deferred cleanup are one step, because the cleanup reads handle fields
  that a newly started loop would overwrite. One goroutine drives each transfer. Interrupted system calls are finite
  in number. A write to the wake pipe after the loop closed it is lost.
- ReaperProtocol: calling all callbacks at failure or shutdown is one step, although each runs under its own lock.
- ReaperObjects.AsyncTransfer.Callback: the copy of isochronous packets into a generic transfer is not modelled.
- `AsyncBulkTransfer` on both systems, the deprecated `Transfer` family and the macOS pump, whose guards differ.
- Memory ordering below the level of locks, raw pointers, pinning and struct layouts.
- ConfigUnmarshal.ConfigDescriptor.Unmarshal: error texts are kinds with the offending length; pointers returned by the
  lookups are indices, so writing through them is not modelled.
- ConfigEncode.RoundTrip: Extra is written before a setting's endpoints, so a leftover of the companion's type is never
  taken for one; bytes beyond a descriptor's standard length are written as zeros.
- ConfigWalks.FlatWalkAgreesWithTree: bytes with a one-byte chunk, a header length other than 9 or a total length short
  of the end are excluded, because the walkers then start or stop elsewhere than the parser. When interfaces share an
  endpoint the endpoint lists can agree although interfaces changed places (`ConfigLists.SharedEndpointHidesOrder`).
- ConfigWalks.Flattened: fetching the descriptor is not modelled. The Linux `ReadConfigDescriptor` is left out: it has
  no guard against a zero length and so does not terminate on every input.
- HotplugWindows.HotplugHandle.OnDeviceChange: lowering a path is any function of it, and the device made from a path is
  a parameter. Window creation and the wait in `Deregister` are left out.
- HotplugLinux.HotplugHandle.HandleUevent: the two device listings are parameters; the wait between them is left out.
- HotplugPump: a write to the closed pipe counts as a byte nobody reads.
- ReportQueue.HidCollection.ReadReport: the wait for a report or the timeout is left out, finding none is a timeout.
  Nothing closes the channel, so its closed case is left out. There is one producer, the run loop. Starting and
  stopping the pump are left out.
- Utf16: `encodeSetupPacket` and `descriptorRequestValue` are one-line layouts.
- IsoPackets.IsochronousTransfer.constructor: the original panics on an empty buffer, which the model allows.
- IsoPackets.IsochronousTransfer.OnCompletion: that the kernel writes back only status and actual length is an
  assumption (`Valid` holds of the shared descriptors).
- SysfsNames.DeviceList: reading sysfs is left out, and of a device only bus, address, port and hub address are kept.
- BOS, qualifier and hub replies, speed tables, VID/PID parsing, location identifiers, command-line tools and the
  usb.ids database.
