# A verified model of the compositor's hardest parts

This project models the parts of the compositor that are state machines or exact arithmetic, and proves what they promise. Each core file has a Dafny file of specification functions and proofs, and one with its classes: fields and arrays updated in place, loops with invariants, each method proved to do the step the specification names.

- **The log ring** (`LogModel.dfy`, `LogMemory.dfy`, `LogRing.dfy`). A byte ring and a ring of line references under four 32-bit cursors refine an unbounded log with its bytes. Over every run of imbue and commit the history is a suffix of the lines of everything written, the wrap of the cursors is never seen, and a line born within the last five eighths of the buffer (more than the half asked for) is still there unless 8192 newer ones exist. Every line of the history is one slice of the array, byte for byte where producers commit all they write; where one writes past what it commits, the lines that spoils are told exactly.
- **The device** (`FakeKms.dfy`, `DumbBuffer.dfy`). Atomic requests are all or nothing, and every accepted event commit completes once, in order. A size is accepted exactly when it fits, whatever wraps on the way.
- **The KMS output** (`KmsModel.dfy`, `KmsProofs.dfy`, `KmsEffects.dfy`, `KmsHandoff.dfy`, `KmsOutput.dfy`). Two images, one flip in flight, direct scanout, remodeset, power, sessions, mode switch and the screenshot hand-off, over every sequence of calls and device turns.
- **GEM handles** (`GemHandles.dfy`). Reference counts of imported planes against the device's table of objects.
- **The offload job** (`OffloadModel.dfy`, `OffloadImpl.dfy`). Loop and worker as interleaved atomic steps.
- **Gestures** (`GestureModel.dfy`, `InputRouter.dfy`). Who owns a gesture and what each sink is told, with the desktop as the first sink and the seat as the last; the three kinds share one model, as their code differs in name only.
- **Color** (`Color.dfy`, `ColorMapping.dfy`). Matrix algebra, primaries, tone map and desaturation, over the reals.
- **The sndio echo filter** (`EchoModel.dfy`, `SndioMixer.dfy`).
- **D-Bus menus** (`MenuModel.dfy`, `DBusMenu.dfy`). The reader of a layout against the outline of the layout, which determines the menu.
- **The icon store** (`IconModel.dfy`, `IconStore.dfy`). Cached against uncached resolution, and which file either loads.
- **Notifications** (`NotifierModel.dfy`, `Notifier.dfy`).
- **The window switcher** (`AltTab.dfy`).

`dafny verify dfyconfig.toml` checks the whole project.

## Where the code and its promise part

- The formatter of a double writes a terminator behind the characters that are committed (ext/libstd/std/ios/out_zc.cpp:87-92, ext/libstd/std/str/fmt.cpp:50-52), and the log is given doubles (device_kms.cpp:1585). A line that starts exactly a buffer behind the cursor is kept (log.cpp:147), so the terminator can fall on its first byte. `DoubleSpoilsALine` is a run of one line and one double after which the oldest kept line is not what was written. Where producers leave at most one byte behind, all kept lines are in place after a commit exactly if that byte is on none of their first bytes or equals it (`TerminatorRun`); `CommitExactly` says the same of any bytes left behind, and `CleanRun` that without them nothing is ever spoiled.
- The image a screenshot took is to be left alone until it is off the screen. `acquire()` keeps to that with no flip in flight, but compositions forced for a readback or the eyedropper ask for an image without asking whether the output is ready (renderer.cpp:4149-4171, 4416-4437). Asked for in flight, the taken image is handed out exactly when the other one is in flight (`NextImageIsFree`); `TakenImageIsHandedOut` is the step that leads there, and `TakenImageReachesRenderer` a run to it on any device that refuses no more than a cursor. The image on the screen is handed out in the same way.
- `RgbToXyz` sends full red, green and blue to the white point exactly when the primaries pass the guard of the inverse, except for a white at y = 1, which primaries below the guard may also make (`WhiteExactly`); the luma weights sum to 1 exactly when they pass it or the white is at y = 1 (`LumaSumsToOne`). `valid()` does not imply the guard: `ValidMayBeUnguarded` gives a set it accepts. It does for every white away from the y = 0 axis (`OrdinaryWhiteGuards`), and whenever no primary has a y above 1, as no physical one has (`PhysicalIsExact`).
- So a transform between valid sets of one white point may lose white: `WhiteMayBeLost` gives a pair, `TransformKeepsWhite` says exactly when.
- The mapped color has the luma of the tone map if its luminance is not above zero, and if that is above 1e-9 exactly when the luma weights of the target sum to 1 or no channel had to be drawn in; in between it is taken for black and never has it (`ReachedLuma`). The target of an HDR output is what the display reports, and nobody asks `valid()` of it (color.cpp:362-364): on collinear primaries the weights may sum to 2, and `LumaMayBeMissed` gives a color whose luma is missed there whatever the peak.
- The icon cache answers as the uncached resolution does exactly when every `Icon=` value that a lookup other than its own consults means the same as a value and as a query of its own (`TruthfulIffAgree`). That no value is a desktop id is neither needed (an entry named by its own id is harmless) nor enough: `FoldingValueLies` gives an index where a value that resolves to nothing folds to a desktop id. `PlainIsTruthful` gives a condition on the indexes alone that suffices.
- A post reads the id of its toast after a trim that may have dropped that toast; the model carries the id along. `PostSurvives` says exactly when the toast is still there: a new one is dropped exactly when it is muted and the history is full of toasts on screen (`NewToastSurvives`).
- An expiry closes by id, so once ids have wrapped it may close an older toast of the same id; it takes its own off the screen exactly when there is none (`ExpiryClosesItsToast`).
- When a drain of the pending flip gives up after its timeout, the next present collides exactly when the device still owes the flip and no test of a modeset refuses it first (`GiveUpCollides`); every other result about the output assumes that accepted flips are delivered.
- A modeset that asks for HDR is to fall back to SDR rather than leave the display dark (device_kms.cpp:2535-2551). Where the device refuses the cursor plane too, the fallback is tested with the cursor again and the modeset fails; the state is SDR by then, so the next one goes through (`CommitObliged`, `RetryTaken`).

## Model

| member | source | states |
|---|---|---|
| `LogModel.SplitIsASplit` | log.cpp:105-132 | the reference splits a byte stream at newlines and at every 16384 bytes, losing nothing: its lines and rest join to the stream |
| `LogModel.SplitIsUnique` | log.cpp:105-132 | no other lines of at most 16384 bytes and no shorter rest join to the same stream, so the reference is the split |
| `LogModel.MoveCost` | log.cpp:72-82 | a relocation wastes less than a quarter of the buffer on padding and an eighth on the copy, and the copy does not overlap its source |
| `LogModel.ImbueKeeps` | log.cpp:84-102 | making room loses no byte, keeps the invariant and leaves the room asked for |
| `LogModel.CommitKeeps` | log.cpp:105-132 | a commit appends exactly its bytes to the stream and keeps the invariant |
| `LogModel.RunAtRest` | log.cpp:84-132 | every run of writes keeps the invariant, and its stream is what was written |
| `LogModel.HistoryIsSuffix` | log.cpp:72-165 | over every run the history is a suffix of the reference lines of everything written, at most 8192 of them |
| `LogModel.RecentLinesAreKept` | log.cpp:72-153 | over every run a line born within the last 5/8 of a buffer written is in the history unless 8192 newer ones exist |
| `LogRing.WrapSub` | log.cpp:72-165 | differences of wrapped cursors are the differences of the unbounded ones |
| `LogMemory.WriteSpares` | log.cpp:72-132 | bytes written at a cursor spare every line that ends before it and is less than a lap old |
| `LogMemory.ImbueSound` | log.cpp:84-102 | making room leaves every kept line in place that was, with the unfinished line moved to where it now starts |
| `LogMemory.CommitSound` | log.cpp:105-132 | a commit spoils no kept line from a buffer behind the last byte written on, committed or not |
| `LogMemory.StrayExactly` | log.cpp:105-165 | which bytes of a line bytes left behind a commit replace: those a buffer behind them, and no others |
| `LogMemory.CommitExactly` | log.cpp:105-165 | after a commit that leaves bytes behind, every kept line is in place exactly if those bytes equal the kept bytes they fall on |
| `LogMemory.RunSound` | log.cpp:84-165 | over every run of producers, whatever they leave behind, the kept lines from a buffer behind the furthest byte written on are in place |
| `LogMemory.RunIsLog` | log.cpp:84-132 | over every run the log is that of what was committed, so its lines are the split of that stream |
| `LogMemory.CleanRun` | log.cpp:84-165 | over every run of producers that commit all they write, every kept line is in place |
| `LogMemory.TerminatorRun` | ext/libstd/std/ios/out_zc.cpp:87-92 | over every run that leaves at most a terminator behind each commit, after one more commit every kept line is in place exactly if the terminator is not on the first byte of one, or is that byte |
| `LogMemory.DoubleSpoilsALine` | ext/libstd/std/str/fmt.cpp:50-52 | a run of one line and one logged double after which a kept line is not in place |
| `LogRing.LogImpl.constructor` | log.cpp:64-67 | the ring starts as the empty log |
| `LogRing.LogImpl.Push` | log.cpp:134-141 | a reference lands in the next slot, and the oldest gives way when the ring is full |
| `LogRing.LogImpl.DropDead` | log.cpp:143-153 | evicts exactly the lines more than a buffer behind the cursor |
| `LogRing.LogImpl.RelocateUnfinished` | log.cpp:72-82 | moves the unfinished line to the start of the next lap, with every kept line that was in the array still there |
| `LogRing.LogImpl.Imbue` | log.cpp:84-102 | does the step of the unbounded log and exposes the contiguous tail, at least as long as asked |
| `LogRing.LogImpl.CommitBytes` | log.cpp:105-126 | the walk over the committed bytes puts each of them, with wrapping cursors, as the unbounded log does |
| `LogRing.LogImpl.Commit` | log.cpp:105-132 | of what the producer wrote in the exposed room the first `len` bytes become the end of the stream and the rest stay in the array, by the step of the log with its bytes |
| `LogRing.LogImpl.HistLen` | log.cpp:155-157 | the number of lines kept |
| `LogRing.LogImpl.HistElem` | log.cpp:159-165 | one slice of the array for the nth kept line: it is the line, byte for byte, exactly if no byte left behind spoiled it, as none does from the floor on |
| `LogRing.LogImpl.WriteSome` | ext/libstd/std/ios/out_zc.cpp:52-61 | one round takes what fits the exposed tail, at least one byte, and appends exactly that |
| `LogRing.LogImpl.WriteC` | ext/libstd/std/ios/output.cpp:74-82 | bulk output of any length, round by round, appends exactly its bytes to the stream |
| `LogRing.LogImpl.WriteDouble` | ext/libstd/std/ios/out_zc.cpp:87-92 | the characters of a double are committed and its terminator is left behind, by one step of the run of producers |
| `FakeKms.RefusalKnown` | kms_fake.cpp:1318-1458 | a request is let through only if every setting names a known property of its object and the display refuses none |
| `FakeKms.AtomicIsAllOrNothing` | kms_fake.cpp:1318-1458 | a request that fails or tests changes no property and starts no flip; one that is taken sets every property it names to its last value and no other but the link depth |
| `FakeKms.EveryFlipCompletesOnce` | kms_fake.cpp:1318-1502 | over every run the events delivered are those of the accepted event commits, in order, numbered by deliveries, and only the pending one can be missing |
| `FakeKms.HeldFlipIsReleased` | kms_fake.cpp:2416-2421 | a held flip stays pending and completes once the hold is gone |
| `FakeKms.ArmedFailures` | kms_fake.cpp:1386-1392 | exactly the failures armed befall requests nothing else refuses, with their errno and no other trace |
| `FakeKms.Emulator.Validate` | kms_fake.cpp:1325-1384 | the first walk over the flat arrays finds the first refusal there is |
| `FakeKms.Emulator.ApplySettings` | kms_fake.cpp:1395-1458 | the second walk leaves the table as applying every setting in order |
| `FakeKms.Emulator.EmuAtomic` | kms_fake.cpp:1318-1458 | the ioctl answers and changes the device as the atomic step does |
| `FakeKms.Emulator.FlipLoop` | kms_fake.cpp:1460-1502 | one turn of the flip thread completes the pending flip unless flips are held |
| `DumbBuffer.ChecksAreExact` | kms_fake.cpp:1147-1158 | the device's checks in wrapping words come to the bounds on the exact products |
| `DumbBuffer.CreateDumb` | kms_fake.cpp:1147-1195 | a size is refused exactly when it does not fit, and the pitch of one accepted is the least multiple of 256 that holds a row |
| `KmsProofs.PageFlipKeeps` | device_kms.cpp:816-837 | a completed flip keeps the protocol and leaves no flip in flight |
| `KmsProofs.DrainKeeps` | device_kms.cpp:1283-1301 | a drain whose event is delivered keeps the protocol and leaves none in flight |
| `KmsProofs.CommitOutcome` | device_kms.cpp:2403-2612 | a commit, with its retries, either puts the image in flight once or leaves the device showing what it did |
| `KmsProofs.PresentKeeps` | device_kms.cpp:3187-3203 | presenting keeps the protocol |
| `KmsProofs.DirectKeeps` | device_kms.cpp:3448-3487 | direct scanout keeps the protocol and the books of frame references |
| `KmsProofs.RemodesetKeeps` | device_kms.cpp:1393-1402 | a remodeset keeps the protocol |
| `KmsProofs.DisplayKeeps` | device_kms.cpp:2021-2110 | display settings that turn HDR on or off, and the modeset after them, keep the protocol |
| `KmsProofs.PowerKeeps` | device_kms.cpp:3042-3072 | power save keeps the protocol |
| `KmsProofs.SessionOnKeeps` | device_kms.cpp:3310-3329 | the return of the session keeps the protocol |
| `KmsProofs.SwitchKeeps` | device_kms.cpp:2269-2384 | a mode switch, rebuilt or not, keeps the protocol |
| `KmsProofs.ScreenshotKeeps` | device_kms.cpp:3205-3303 | each step of the screenshot hand-off keeps the protocol |
| `KmsProofs.RunKeeps` | device_kms.cpp:816-837 | every sequence of steps keeps the protocol |
| `KmsProofs.NextImageIsFree` | device_kms.cpp:3179-3203 | in every reachable state no commit was sent while one was in flight; the image handed out is neither on screen nor taken with none in flight, and is so in flight exactly when the other image is the one in flight |
| `KmsProofs.BuffersAreConserved` | device_kms.cpp:3205-3303 | in every reachable state there are two scan buffers, and a third exactly while a screenshot has one prepared or taken |
| `KmsProofs.FramesAreConserved` | device_kms.cpp:3448-3536 | every frame reference is held or was released, once, and outside mode switch and teardown only after a later commit's flip |
| `KmsHandoff.StepKeepsTaken` | device_kms.cpp:3280-3303 | under every step the taken image stays taken and alive, or dies after a flip of ours showed it, neither on screen nor on the plane |
| `KmsHandoff.TakenImageDiesOffScreen` | device_kms.cpp:3280-3303 | over every run the taken image is alive until such a step |
| `KmsHandoff.TakenImageIsHandedOut` | device_kms.cpp:3179-3203 | with a taken image on screen, an accepted present of the other leaves the taken one to be handed out until the flip completes |
| `KmsHandoff.TakenImageReachesRenderer` | renderer.cpp:4595-4626 | on every device that refuses no more than a cursor a run leads to a state that hands the taken image out |
| `KmsHandoff.PresentAccepted` | device_kms.cpp:3187-3203 | on such a device every present with nothing in flight is accepted |
| `KmsProofs.StepFresh` | device_kms.cpp:3205-3303 | no step brings back a buffer that was destroyed |
| `KmsProofs.DeadBuffersStayDead` | device_kms.cpp:3205-3303 | a destroyed buffer is never again handed out for rendering, over every run |
| `KmsHandoff.GiveUpCollides` | device_kms.cpp:1287-1293 | after the drain's give-up the next present is refused if the device still owes the flip, and collides exactly if besides no test of a modeset still to be done refuses it first |
| `KmsEffects.PresentReachesScreen` | device_kms.cpp:3187-3203 | an accepted present puts its image on the screen with the next flip, and the other one is handed out |
| `KmsEffects.DirectReachesScreen` | device_kms.cpp:3448-3487 | an accepted direct frame puts the client's buffer on the screen with the next flip, its reference held |
| `KmsEffects.ScreenshotFromEndToEnd` | device_kms.cpp:3205-3303 | the image taken is shown, and once the next one is it is destroyed, the spare sits in its slot and a new screenshot can begin |
| `KmsEffects.ScreenshotGivesUp` | device_kms.cpp:3225-3275 | a screenshot with no image for it, or none exported, leaves two buffers, and another can begin |
| `KmsEffects.ModesetLights` | device_kms.cpp:2403-2612 | an accepted modeset leaves the pipe on with the configured mode and the signal the backend goes by, whatever was given up to have it accepted |
| `KmsEffects.CommitObliged` | device_kms.cpp:2514-2612 | a device that refuses no more than a cursor or HDR takes a commit, giving up exactly what it refuses, unless one modeset asks for both |
| `KmsEffects.RetryTaken` | device_kms.cpp:2529-2571 | what failed so is taken at the next try, in SDR and without the cursor plane |
| `KmsEffects.FirstPresentLights` | device_kms.cpp:3187-3203 | an accepted present with the mode to be set lights the pipe at the mode |
| `KmsEffects.DegradedGoesSdr` | device_kms.cpp:2614-2640 | a flip that finds the HDR link degraded has the next present set the mode again, in SDR |
| `KmsEffects.DirectTaken` | device_kms.cpp:3448-3487 | a device that refuses no more than a cursor takes every direct frame of an imported buffer once the mode is set; no other is sent |
| `KmsEffects.RemodesetRelights` | device_kms.cpp:1393-1402 | on such a device a remodeset puts the image not handed out next in flight, the pipe on at the mode; with no mode set it only drains |
| `KmsEffects.SettingsRelight` | device_kms.cpp:2099-2109 | so does a change of the display settings, with the HDR state asked for |
| `KmsEffects.SessionRelights` | device_kms.cpp:3310-3329 | so does a session that comes back; one that was not away only drains |
| `KmsEffects.RelitReachesScreen` | device_kms.cpp:1393-1402 | the image so put in flight is on the screen with the next flip |
| `KmsEffects.SwitchRelights` | device_kms.cpp:2328-2384 | a mode switch that goes through, and the remodeset after it, put a new image in flight at the new mode |
| `KmsEffects.SwitchKeepsMode` | device_kms.cpp:2328-2384 | one that does not keeps the mode: put off whole, or drained with the direct frames given back |
| `KmsEffects.PowerOnRelights` | device_kms.cpp:3042-3072 | on a device that refuses no more than a cursor, waking puts the image not handed out next in flight, the pipe on at the mode; on any other it does whenever a flip is in flight after it |
| `KmsEffects.PowerOffDarkens` | device_kms.cpp:3042-3072 | power goes with the pipe off, unless the device refuses, and nothing in flight |
| `KmsOutput.Output.constructor` | device_kms.cpp:1404-1418 | the output starts with two fresh images and keeps the protocol |
| `KmsOutput.Output.TryCommit` | device_kms.cpp:2403-2510 | one atomic request as specified, its settings in order |
| `KmsOutput.Output.Commit` | device_kms.cpp:2514-2612 | the commit with its retries as specified |
| `KmsOutput.Output.PageFlipHandler` | device_kms.cpp:816-837 | the handler does the specified turn-over and keeps the protocol |
| `KmsOutput.Output.DrainPendingFlip` | device_kms.cpp:1283-1301 | ends with no flip in flight, on either side |
| `KmsOutput.Output.Acquire` | device_kms.cpp:3179-3181 | the image handed out with no flip in flight is not the one on screen |
| `KmsOutput.Output.PresentImage` | device_kms.cpp:3187-3203 | presents as specified and keeps the protocol |
| `KmsOutput.Output.DirectScanout` | device_kms.cpp:3448-3487 | scans a client's buffer out as specified and keeps the protocol |
| `KmsOutput.Output.Remodeset` | device_kms.cpp:1393-1402 | remodesets as specified and keeps the protocol |
| `KmsOutput.Output.ApplyDisplaySettings` | device_kms.cpp:2099-2109 | takes the HDR state asked for and remodesets as specified, keeping the protocol |
| `KmsOutput.Output.SetPowerSave` | device_kms.cpp:3042-3072 | turns off and on as specified and keeps the protocol |
| `KmsOutput.Output.SessionEnabled` | device_kms.cpp:3310-3329 | comes back as specified and keeps the protocol |
| `KmsOutput.Output.SwitchMode` | device_kms.cpp:2328-2384 | switches the mode as specified and keeps the protocol |
| `KmsOutput.Output.TakeScreenshot` | device_kms.cpp:3237-3274 | hands the image over as specified and keeps the protocol |
| `KmsOutput.Output.RetireScreenshot` | device_kms.cpp:3280-3303 | swaps the spare in for the taken image as specified |
| `GemHandles.NothingLeaks` | device_kms.cpp:3335-3354 | with nothing imported only the compositor's own objects are open |
| `GemHandles.ListedIsOpen` | device_kms.cpp:3335-3442 | every handle an imported framebuffer lists is open and counted: nothing closes early |
| `GemHandles.UsesAfterSwapRemove` | device_kms.cpp:3489-3510 | removal by moving the last entry into the hole counts every handle as removal does |
| `GemHandles.UnrefCounted` | device_kms.cpp:3343-3354 | one use fewer keeps the count exact, and closes the handle's one object exactly at the last |
| `GemHandles.MidUndone` | device_kms.cpp:3369-3442 | giving the uses of a failed import back restores counts and table |
| `GemHandles.DirectFbs.PrimeFdToHandle` | kms_fake.cpp:1084-1131 | one handle per object: an open object keeps its handle, a new one gets one nobody has |
| `GemHandles.DirectFbs.GemClose` | kms_fake.cpp:1133-1145 | closing removes exactly the object of the handle |
| `GemHandles.DirectFbs.GemHandleRef` | device_kms.cpp:3335-3341 | one use more of one handle |
| `GemHandles.DirectFbs.GemHandleUnref` | device_kms.cpp:3343-3354 | one use fewer, with the device's table as the counts say |
| `GemHandles.DirectFbs.ImportDirectFb` | device_kms.cpp:3369-3442 | an import that fails, at any plane or at the framebuffer, leaves counts and table as they were; one that succeeds counts each distinct handle once |
| `GemHandles.DirectFbs.DropScanoutFb` | device_kms.cpp:3489-3510 | drops the framebuffers of a buffer and the uses they made, and no others |
| `OffloadModel.StepKeeps` | offload_job.cpp:68-124 | every step of loop or worker keeps the invariant, with the counters wrapping |
| `OffloadModel.NothingIsLost` | offload_job.cpp:68-124 | in every interleaving a finished pass not retired has a signal pending, collected or about to be sent, every request is behind a pass that began after it or one sure to begin, and the listener fired once per retired pass |
| `OffloadModel.StaleWakeupIsQuiet` | offload_job.cpp:98-109 | a wakeup with no new pass retires nothing and runs nothing |
| `OffloadModel.RetireIs` | offload_job.cpp:98-124 | retiring a pass queues at most one more, whoever asked for it |
| `OffloadModel.StepsTowardsRest` | offload_job.cpp:68-124 | without new requests and with a listener that does not re-run, every step brings rest nearer |
| `OffloadModel.DrainIsNeverStuck` | offload_job.cpp:89-96 | a waiting drain always has a step to take |
| `OffloadModel.RestIsSettled` | offload_job.cpp:68-124 | where no such step is left every pass was retired and announced and every request covered |
| `OffloadImpl.OffloadJob.Run` | offload_job.cpp:68-81 | starts a pass, or remembers to |
| `OffloadImpl.OffloadJob.Worker` | offload_job.cpp:76-80 | the worker's steps in their order: work, count, signal |
| `OffloadImpl.OffloadJob.Join` | offload_job.cpp:83-87 | ends with the worker idle and the loop's side untouched |
| `OffloadImpl.OffloadJob.Retire` | offload_job.cpp:103-124 | retires what was read and re-runs only if the listener did not |
| `OffloadImpl.OffloadJob.Retired` | offload_job.cpp:98-124 | is its atomic steps, with any number of the worker's in between |
| `OffloadImpl.OffloadJob.Drain` | offload_job.cpp:89-96 | ends once the listener stops re-running, with no pass in flight, the eventfd drained and every pass retired |
| `GestureModel.WalkAsksInOrder` | input_router.cpp:41-53 | a walk asks the sinks in list order, each once, and all decline but the one it stops at; it ends at the seat at the latest |
| `GestureModel.BeginIsHeard` | input_router.cpp:114-127 | a begin ends what is left of a gesture of its kind, then is offered in list order up to the first claimant, the new owner |
| `GestureModel.UpdateIsHeard` | input_router.cpp:129-154 | an update is offered to the sinks before the owner; the owner hears of it last, and stays owner, exactly if none claimed it, and of a cancelled end otherwise |
| `GestureModel.EndIsHeard` | input_router.cpp:156-180 | an end is offered to the sinks before the owner; the owner hears of it last, as it came exactly if none claimed it, and cancelled otherwise |
| `GestureModel.EndInEveryRun` | input_router.cpp:114-289 | so it does after every run, with every claim in the log the answer the sink gives |
| `GestureModel.DeskTakesBound` | desktop.cpp:867-935 | the desktop takes a gesture begun exactly if it is locked or an action is bound to its kind, a hold apart |
| `GestureModel.StepKeeps` | input_router.cpp:114-289 | every event keeps the protocol: one claimant per begin, updates to the owner only when no earlier sink claims them, exactly one end, nothing after it |
| `GestureModel.RunKeeps` | input_router.cpp:114-289 | every run of events, locks, settings and deaths keeps the protocol |
| `GestureModel.SeatInEveryRun` | input_router.cpp:114-289 | over every run the seat sees begin, updates, end, over and over |
| `GestureModel.WalkFromDesk` | desktop.cpp:867-935 | the desktop is asked first and the walk stops there exactly when it claims |
| `GestureModel.LockedEvent` | desktop.cpp:875-935 | behind a lock the next event of a kind takes it from its client, with a cancelled end |
| `GestureModel.LockedSilence` | desktop.cpp:875-935 | behind a lock a client-owned gesture brings exactly one cancelled end, and nothing else reaches any client |
| `InputRouter.Router.constructor` | input_router.cpp:55-58 | a router with no owners |
| `InputRouter.Router.Tell` | desktop.cpp:867-935 | a call to a sink: the desktop's own claims and the seat's |
| `InputRouter.Router.Claimant` | input_router.cpp:41-53 | the loop over the list is the walk |
| `InputRouter.Router.Begin` | input_router.cpp:114-127 | ends an owner left over, then binds the claimant |
| `InputRouter.Router.Update` | input_router.cpp:129-154 | tells the owner, or takes the gesture from it |
| `InputRouter.Router.End` | input_router.cpp:156-180 | does the step that `EndIsHeard` describes |
| `Color.Multiply` | color.cpp:11-23 | the triple loop is the product |
| `Color.ProductApplies` | color.cpp:11-23 | a product acts as its factors one after the other |
| `Color.InverseIsTwoSided` | color.cpp:25-44 | the inverse is one on both sides above its determinant guard, and the identity below |
| `Color.InverseUndoes` | color.cpp:25-44 | above the guard the inverse takes every color back |
| `Color.ScaleColumns` | color.cpp:68-72 | the scaling loop multiplies each primary by its weight |
| `Color.WhiteExactly` | color.cpp:46-75 | full red, green and blue make the white point exactly when the primaries pass the guard, or the white is at y = 1 and they map it to itself |
| `Color.LumaSumsToOne` | color.cpp:46-75 | the luma row sums to 1 exactly when the primaries pass the guard or the white is at y = 1, and to 1 / y otherwise |
| `Color.OrdinaryWhiteGuards` | color.cpp:148-161 | a valid set whose white is not next to the y = 0 axis passes the guard |
| `Color.PhysicalIsExact` | color.cpp:46-161 | a valid set whose primaries have no y above 1 passes the guard, makes its white exactly and has luma weights that sum to 1 |
| `Color.ValidMayBeUnguarded` | color.cpp:148-161 | a set `valid()` accepts whose luma row sums to a million |
| `Color.StandardSetsAreSound` | color.cpp:136-146 | sRGB, BT.2020 and Display P3 are valid and pass the guard |
| `Color.TransformKeepsWhite` | color.cpp:132-134 | between valid sets of one white point white is kept when both pass the guard, lost when one does and the white is off y = 1, and otherwise kept exactly when both make the same of it |
| `Color.WhiteThrough` | color.cpp:132-134 | a transform keeps white exactly when both sets make the same of full red, green and blue |
| `Color.WhiteMayBeLost` | color.cpp:132-161 | two sets `valid()` accepts, of one white point, between which white is lost |
| `Color.TransformUndone` | color.cpp:132-134 | the transform back undoes the transform there, for every color |
| `ColorMapping.Reference` | color.cpp:394-417 | the reference level is below the peak |
| `ColorMapping.ToneMapRange` | color.cpp:117-129 | never above the peak, the identity up to the knee, darkness to zero, and for a known peak always below it |
| `ColorMapping.ToneMapRises` | color.cpp:117-129 | strictly rising on what is not dark, and never by more than its argument: no jump at the knee |
| `ColorMapping.ToneMapReaches` | color.cpp:117-129 | every level below the peak is reached |
| `ColorMapping.ReachedInRange` | color.cpp:419-451 | the color reached in target space has every channel in [0, peak] |
| `ColorMapping.ReachedLuma` | color.cpp:419-451 | for every mapping, its luma is the tone map of the input's exactly if that is not above zero, or is above 1e-9 and the luma weights sum to 1 or no channel has to be drawn in |
| `ColorMapping.LumaMayBeMissed` | color.cpp:362-452 | on every HDR output of these collinear primaries a color of luminance 50 is reached with another luma |
| `ColorMapping.LuminanceIsY` | color.cpp:394-421 | the luminance the mapping goes by is the luma of the light in the scene under the night light |
| `ColorMapping.InGamutIsExact` | color.cpp:394-452 | a lit color with every channel in range is shown as its light in the scene, adapted by the night light and dimmed by the tone map, not at all up to nine tenths of the peak |
| `ColorMapping.InGamutIsKept` | color.cpp:394-452 | with the night light off such a color comes out of the mapping as it went in |
| `ColorMapping.DrawnNoFurther` | color.cpp:419-451 | a lit color is drawn towards its grey, all channels alike, and no further than must be |
| `ColorMapping.MapOutputNits` | color.cpp:419-452 | the loop over the channels finds the desaturation of the specification |
| `ColorMapping.ShownFits` | color.cpp:394-452 | end to end, with any night light, a mapped color taken to the output's primaries is in range, and has the tone-mapped luma exactly if it is dark, or lit with primaries past the guard, a white at y = 1, or no channel drawn in |
| `EchoModel.First` | mixer_sndio.cpp:92-98 | the first place of a value in the queue |
| `EchoModel.ReportKeeps` | mixer_sndio.cpp:92-105 | a timely report is one of the writes in flight, and the writes still due stay in flight |
| `EchoModel.EchoesAreSilent` | mixer_sndio.cpp:79-105 | over every run of requests, equal or not, descriptions, and reports in order and at most 32 sends late, the level or mute is what was last asked for or described, and no report changes it |
| `EchoModel.NewsSupersedes` | mixer_sndio.cpp:89-105 | a value not in flight becomes the level and empties the queue |
| `EchoModel.OneLaterIsBelieved` | mixer_sndio.cpp:79-105 | the bound of 32 is exact |
| `SndioMixer.Writes.Sent` | mixer_sndio.cpp:80-87 | the array keeps the last 32 writes |
| `SndioMixer.Writes.Echoed` | mixer_sndio.cpp:92-105 | the array forgets up to the first match, or everything |
| `SndioMixer.SoftMuteUndone` | mixer_sndio.cpp:129-182 | muting and unmuting without a mute control restores the level |
| `SndioMixer.MuteTakes` | mixer_sndio.cpp:154-182 | the mixer is as asked unless there is no mute control and nothing to park; a mute control is sent 1 or 0 |
| `SndioMixer.VolumeIsNearest` | mixer_sndio.cpp:133-152 | a volume set is the nearest raw level, sent if it is a change, and announced either way |
| `SndioMixer.NewsIsHeard` | mixer_sndio.cpp:237-249 | a report of news changes the control at its address, announced exactly if it is a change; an echo changes nothing but the queue |
| `SndioMixer.Mixer.SetVolume` | mixer_sndio.cpp:133-152 | writes a level that differs, and notifies either way |
| `SndioMixer.Mixer.SetMuted` | mixer_sndio.cpp:161-182 | mutes by the control, or parks the level and brings it back |
| `SndioMixer.Mixer.Val` | mixer_sndio.cpp:237-249 | a report changes level or mute only if it is no echo |
| `SndioMixer.Mixer.Describe` | mixer_sndio.cpp:210-233 | a control appears, with its level, or goes |
| `MenuModel.CountIsSize` | dbus_menu.cpp:378-433 | the reader's count is the number of items of the depth-pruned tree |
| `MenuModel.ReadIsListed` | dbus_menu.cpp:378-433 | what is read has the outline of the layout: its nodes of an id other than 0, at most 16 deep, in document order, each under those above it |
| `MenuModel.OutlineIsOneMenu` | dbus_menu.cpp:378-433 | no other menu has that outline and opens its submenus as said |
| `MenuModel.MenuOfLayout` | dbus_menu.cpp:378-433 | so a menu is the one read exactly if it has the outline, and has as many items as the outline lines |
| `MenuModel.IndexedFinds` | dbus_menu.cpp:427-430 | every item of the layout is found under its id |
| `MenuModel.IndexedHolds` | dbus_menu.cpp:427-430 | whatever is found under an id is an item of the layout with that id |
| `MenuModel.IndexIsExact` | dbus_menu.cpp:427-430 | an id that names one item finds that item |
| `MenuModel.ItemsAreSound` | dbus_menu.cpp:394-430 | no item has id 0, and every item with children is a submenu |
| `DBusMenu.ReadFurther` | dbus_menu.cpp:412-425 | children read one after another come to their items in document order |
| `DBusMenu.ItemRead` | dbus_menu.cpp:378-433 | an item whose children were read into the pool is the item the node means |
| `DBusMenu.Menu.ReadNode` | dbus_menu.cpp:378-433 | appends exactly what the node means (`ReadIsListed` says what that is), counts up to 4096, and indexes it |
| `DBusMenu.Menu.ReadLayout` | dbus_menu.cpp:652-693 | the model changes exactly if the reply answers the newest request and is a layout whose outline has fewer than 4096 lines, to the menu of that outline; otherwise nothing changes |
| `DBusMenu.Menu.ClearModel` | dbus_menu.cpp:498-505 | leaves an empty model that is not ready |
| `DBusMenu.Menu.Refresh` | dbus_menu.cpp:534-553 | from here on only the answer to this request counts |
| `DBusMenu.Menu.Number` | dbus_menu.cpp:514-531 | any other call takes a number no layout answer is taken for |
| `IconModel.IconBucket` | icon_store.cpp:53-61 | the least of 16 to 512, doubling, that covers the size, or 512 |
| `IconModel.CoverIsSmallest` | icon_store.cpp:560-571 | the choice is the smallest png that covers the bucket, if any does |
| `IconModel.LargestIsLargest` | icon_store.cpp:560-574 | and the largest png otherwise |
| `IconModel.NameIsFittest` | icon_store.cpp:560-585 | a name is shown by the smallest png that covers; if none does, by the svg; failing it, by the largest png |
| `IconModel.FindLoads` | icon_store.cpp:589-658 | an uncached lookup answers with the file its symbol stands for if that loads, else with that of the lower-case id, else with the id as a path |
| `IconModel.CachedFindTells` | icon_store.cpp:628-658 | if the values agree a cached lookup answers as the uncached one and keeps the cache true |
| `IconModel.RunTells` | icon_store.cpp:455-658 | so does every run of lookups and reloads |
| `IconModel.DisagreementShows` | icon_store.cpp:589-658 | a value that does not agree, and what consults it, make a run of two lookups go wrong |
| `IconModel.TruthfulIffAgree` | icon_store.cpp:589-658 | for every generation, the cache tells the truth over all runs of lookups exactly when every value consulted from elsewhere agrees |
| `IconModel.PlainAgrees` | icon_store.cpp:589-658 | what in the indexes suffices to show for a value to agree |
| `IconModel.PlainIsTruthful` | icon_store.cpp:589-658 | a generation of such values has a truthful cache |
| `IconModel.FoldingValueLies` | icon_store.cpp:628-658 | no value is a desktop id, and still the cache answers wrongly |
| `IconStore.Store.Reload` | icon_store.cpp:455-479 | whatever was cached, every answer kept is one of the new generation |
| `IconStore.Store.ResolveName` | icon_store.cpp:560-585 | loads the smallest png that covers; if none does, the svg at the size asked for; failing it, the largest png |
| `IconStore.Store.ValueIcon` | icon_store.cpp:589-612 | a value is resolved once and kept under its own symbol |
| `IconStore.Store.ResolveSym` | icon_store.cpp:616-626 | a desktop id before a name |
| `IconStore.Store.FindIcon` | icon_store.cpp:628-658 | a lookup by the bucket of the size; if the values agree its answer is the uncached one and every answer kept stays so |
| `NotifierModel.DroppedIs` | notifier.cpp:114-135 | a trim takes the oldest off-screen toasts, in order, and none on screen |
| `NotifierModel.TrimmedIsBounded` | notifier.cpp:114-135 | after a trim the store is within its limit or all left are on screen |
| `NotifierModel.DropOneMore` | notifier.cpp:117-134 | a round of the loop is one toast more |
| `NotifierModel.StepKeeps` | notifier.cpp:99-271 | every operation keeps the invariant of timers, stories and announcements |
| `NotifierModel.EveryRunHolds` | notifier.cpp:99-271 | in every run a running timer's toast is listed and on screen, every toast's story alternates between coming on screen and leaving it, and the announcements are the closes of bus toasts, one for one |
| `NotifierModel.PostIsAnswered` | notifier.cpp:137-181 | a post answers with the id of its toast, and a toast shown is there |
| `NotifierModel.PostIsHeeded` | notifier.cpp:137-181 | after a post its toast is on screen exactly if the first rule of its app allows it, or none mutes it and do not disturb is off; it has a timer exactly if besides it is not critical and may expire |
| `NotifierModel.CloseIsAnnounced` | notifier.cpp:183-203 | a close takes the first toast of the id off the screen and announces it, with the reason, exactly if it came from the bus |
| `NotifierModel.PostSurvives` | notifier.cpp:137-181 | the toast of a post survives its own trim exactly when it is shown or enough older toasts are off screen |
| `NotifierModel.NewToastSurvives` | notifier.cpp:137-181 | a new toast is dropped by its own post exactly when it is muted and at least `history` toasts are on screen |
| `NotifierModel.ExpiryClosesItsToast` | notifier.cpp:285-289 | an expiry takes its own toast off the screen exactly when no toast earlier in the list bears its id, and then announces it if it came from the bus |
| `NotifierModel.MutedPostMayVanish` | notifier.cpp:171-180 | one such post: the store stays empty and the id is still answered |
| `Notifier.Notifier.ArmTimer` | notifier.cpp:99-111 | a timer unless critical or sticky |
| `Notifier.Notifier.Trim` | notifier.cpp:114-135 | drops the surplus, oldest off-screen first |
| `Notifier.Notifier.RuleFor` | notifier.cpp:157-167 | the first of at most 32 rules for the app |
| `Notifier.Notifier.Post` | notifier.cpp:137-181 | posts as specified |
| `Notifier.Notifier.Expire` | notifier.cpp:285-289 | the callback closes by the id of the timer's toast |
| `Notifier.Notifier.Close` | notifier.cpp:183-202 | closes a toast on screen, announcing it if it came from the bus, and does nothing otherwise |
| `Notifier.Notifier.ClearHistory` | notifier.cpp:223-236 | exactly the toasts on screen stay, in order |
| `Notifier.Notifier.ApplyDnd` | notifier.cpp:259-271 | takes everything off screen, timers with it, telling no one |
| `AltTab.Switcher.Step` | desktop.cpp:1259-1299 | the walk selects the target from the selection while the switcher is up, else from the focus, or changes nothing |
| `AltTab.TargetIffMapped` | desktop.cpp:1259-1299 | there is a window to select exactly when one is mapped |
| `AltTab.TargetIsNearest` | desktop.cpp:1259-1299 | the target is the mapped window nearest that way round, from any base or none |
| `AltTab.StepIsTurn` | desktop.cpp:1259-1299 | from a mapped window a step goes to its neighbour among the mapped ones, round the ring |
| `AltTab.BackUndoesForward` | desktop.cpp:1259-1299 | a step back undoes a step forward, and the other way round |
| `AltTab.ForwardsVisitAll` | desktop.cpp:1259-1299 | stepping forward visits every mapped window once, then comes back |
| `AltTab.PressesGoRound` | desktop.cpp:1259-1299 | from the focus, whatever was selected before, the nth press selects the nth mapped window after it |
| `AltTab.PressesVisitAll` | desktop.cpp:1259-1299 | presses once round select each mapped window once, the focused one last, and one press there and back is where it started |

## Left out

- The tee output of the log, and its contract checks, which are preconditions here; masks by a power of two are remainders.
- The characters of a formatted double, which are a parameter, fewer than the 128 asked room for.
- Which slots were ever drawn into: after a mode switch a relight puts an image in flight that was not (device_kms.cpp:2318-2320, 1396).
- The timeout of the flip drain: accepted flips are assumed to be delivered, and `KmsHandoff.GiveUpCollides` shows why.
- Changes of HDR metadata between modesets, the depth, range and CRTC color properties of a modeset, a default colorspace other than 0, the pixel-copying dumb-buffer path, and the second failure of a scanout rebuild, which aborts the compositor.
- The allocation of an atomic request is one more way for the device to refuse it.
- A present refused right after a screenshot was taken: the hand-off begins at the accepted present.
- The emulator's log lines, the reference counts in its object table, mapping and destroying of dumb buffers, and the cursor trace.
- Weak memory: release and acquire are interleaved atomic steps. The destructor of an offload job is its join.
- Sinks that die during a walk, and pointer, key, scroll and tablet events, which have no owner; the swipe and pinch actions the desktop runs at an end.
- Rounding: doubles are reals. A zero y coordinate divides to infinity in the original and is excluded here; the night light's matrix is a parameter.
- The sndio descriptors, polling and wire format; a volume is given between 0 and 1, as both callers see to.
- Item properties of a menu are kept as given, but for the submenu flag; icons, label underscores, shortcuts and property updates are not modelled. Items are places in the model's pool where the original has pointers.
- The registrar, endpoint ownership and pending calls of D-Bus menus; sequence numbers do not wrap.
- Collisions of icon hashes and cache keys, files that change while a generation lasts, a symbol asked for with different ids, and the scan that builds the indexes.
- The history limit of notifications is not negative; texts and icons of toasts and the drawing of them are not kept.
- Weak references of the window switcher are places in the ring; the overlay and the commit of a selection are not modelled.
- EDID, DDC and VT handling, the chaos seam, the control FIFO and all drawing code: foreign data, or only easy members.
