# CMP 50HX idle governor and unlock routines: a verified model

This project models the control logic of the repository in Dafny and proves what it keeps,
for every pattern of sensor readings, faults, requests and interleavings:

* the idle governor: its control loop over several cards, its memory of each card, the
  hardware calls it makes, and the status files it publishes;
* the driver layer below it, where one governor-level fan is an array of fans;
* the ReBAR register transaction, the PCI Express link retrain, and the boot script that
  gives the cards a second initialisation pass.

## How it is built

**Faults are quantified, not simulated.** Each card has a log of the calls made to it, and an
oracle maps (card, number of calls so far) to the next reply: success with a reading, failure
without effect, or failure that leaves the whole card in an arbitrary state. File
operations, PCI configuration accesses and shell commands draw their outcomes from oracles in
the same way. A lemma for every oracle is a statement about every fault pattern. The order in
which a Go map is iterated is likewise arbitrary, and is part of the event it occurs in.

**Two layers.** `Policy.dfy` says what one tick, release, clean-up or request does as functions
on values. `Governor.dfy` holds the governor as an object that updates its card states in place;
each of its methods, including the main loop, is proved equal to the function of `Policy` it
implements. The guarantees are proved about the functions, so they hold of the object.
`StatusWriter.dfy` stands to `Status.dfy` in the same relation.

| file | content |
|---|---|
| `Cards.dfy` | cards, options, profiles, the request and its checks, validation |
| `Hardware.dfy` | controls, calls, replies, logs, the hardware handle |
| `Policy.dfy` | the control loop as functions |
| `Governor.dfy` | the governor object and its main loop |
| `Restoration.dfy`, `Invariant.dfy` | released controls; what every event keeps under any faults |
| `Chronicle.dfy` | what holds of every single call: confinement, debounce, interlock |
| `Runs.dfy`, `Guarantees.dfy` | whole runs, and the promises at every event boundary |
| `History.dfy`, `RunHistory.dfy` | without errors the loop is a function of the readings |
| `Ticks.dfy`, `Recovery.dfy` | fault containment, thermal safety; crash recovery, release versus clean-up |
| `Status.dfy`, `StatusWriter.dfy`, `Publication.dfy`, `CrashSafety.dfy` | the status files |
| `Limits.dfy` | where the promises end, with exact conditions and witnesses |
| `Settings.dfy`, `Decimal.dfy` | the textual settings and the options check |
| `Nvidia.dfy` | fans, and the enumeration of cards |
| `Boards.dfy`, `Registers.dfy`, `Rebar.dfy`, `Retrain.dfy` | device identities, register fields, the two PCI routines |
| `SecondPass.dfy` | the boot script |
| `Agreement.dfy` | what governor, kernel routines and script must agree on |

`dafny verify dfyconfig.toml` checks the whole project.

## What was found

* The governor acts on its flags. A release whose P16 request fails still clears the flags, and
  so does a failed start-up clean-up; a card stuck in P8 without a flag is not given back when
  it becomes busy. The documentation (idle-governor/README.md:23-24) promises a restore within
  one poll; `Limits.BusyReleasedIff` gives the exact condition under which a busy card ends up
  released, and `Limits.StaleP8Survives` a run with one failed call that leaves a fully busy
  card in P8 under an active governor. `Guarantees.NoSilentLeak` is therefore stated with the
  case that the latest restoring call failed, and with the case that a later failed call about
  another control changed this one, which `Limits.DamagedInPassing` shows to be real.
* `syncControl` wraps the error of publishing the status, so a "no such file" from publishing is
  taken for a missing request. The input is another program, such as a cleaner of temporary
  files, that removes the temporary file just before it is renamed
  (`Publication.ActiveMissingIff`). A request that cannot be published is reported exactly if
  the failing file operation says anything else (`Publication.PublishFailureReportedIff`).
  During start-up that answer ends in no report and no withdrawal
  (`Publication.PublishFailureAtStart`); in `Limits.HalfAnnounced` the governor is inactive while
  the files name the new profile.
* Shutting down gives the cards back but leaves the active files in place
  (`Limits.ShutdownStillAnnounced`); a request missing at start-up leaves the files of an earlier
  process in place until the first control tick (`Limits.MissingAtStartupKeepsFiles`).
* Idle polls counted before the governor was disabled still count after it is enabled again
  (`Limits.PauseKeepsCount`). `RunHistory.ActivationRefinesHistory` says exactly when a card
  enters P8 after `n` polls with `m` remembered from before: the last `IdleAfter` readings are
  idle, or there are fewer, all idle, and `m + n >= IdleAfter`. `Limits.EarlyP8` is a run that
  reaches P8 one poll after enabling where two are configured; the readings are nevertheless
  consecutive (`Guarantees.Debounce`).
* If the re-arm of the BAR1 entry fails its readback, the unlock registers and the command word
  are restored but the control entry is not; `Rebar.RearmLeavesEntryIff` says when it is as
  before, `Rebar.FailedRearmStays` shows an entry that is not. If the link retrain gives up, the
  target speeds stay at 5.0 GT/s.

## Model

| member | source | states |
|---|---|---|
| `Cards.LoadControl` | idle-governor/internal/governor/config.go:67-73 | a decoded request is accepted exactly if its profile is one of the five and its percentage is 0 or 15..100; a missing file stays distinguishable |
| `Cards.Validate` | idle-governor/internal/governor/governor.go:200-224 | a profile is accepted exactly if there are enough cards and each of its positions holds the card of that index with supported device, subsystem and memory; otherwise the first offending card and its first fault are named |
| `Settings.ParseClock` | idle-governor/internal/governor/governor.go:110-134 | the loop computes the specified setting, and an accepted one has 100 <= min <= max <= 5000 |
| `Settings.ParseCoreOffset` | idle-governor/internal/governor/governor.go:98-108 | an accepted offset lies in -2000..2000, and is present exactly if the text is not blank |
| `Settings.ClockPairRoundTrip` | idle-governor/internal/governor/governor.go:110-134 | any pair in range, printed with white space around the text and the comma, is read back |
| `Settings.ClockRoundTrip` | idle-governor/internal/governor/governor.go:127-129 | a single printed value is read back as both bounds |
| `Settings.OffsetRoundTrip` | idle-governor/internal/governor/governor.go:98-108 | any printed signed offset in range is read back |
| `Settings.PlusRoundTrip` | idle-governor/internal/governor/governor.go:98-108 | a plus sign may be written |
| `Settings.ClockAcceptedIff` | idle-governor/internal/governor/governor.go:110-134 | clocks are in force exactly if the text writes one number, or two with a comma, in order and in 100..5000; they are absent exactly for a blank text; every other text is refused |
| `Settings.OffsetAcceptedIff` | idle-governor/internal/governor/governor.go:98-108 | an offset is in force exactly if the text is a signed number in -2000..2000; it is absent exactly for a blank text; every other text is refused |
| `Settings.ReversedRefused` | idle-governor/internal/governor/governor.go:130-132 | a printed pair in the wrong order is refused |
| `Settings.ManyPartsRefused` | idle-governor/internal/governor/governor.go:115-118 | a text with more than one comma is refused |
| `Settings.BadPartRefused` | idle-governor/internal/governor/governor.go:119-126 | a pair with a part that is no number in 100..5000 is refused |
| `Settings.BadValueRefused` | idle-governor/internal/governor/governor.go:119-126 | a single part that is no number in 100..5000 is refused |
| `Settings.SplitJoins` | idle-governor/internal/governor/governor.go:115 | splitting yields the comma-free parts that joined give the text |
| `Settings.ConfiguredAsWritten` | idle-governor/internal/governor/governor.go:68-96 | options printed from two bounds and an offset, with any white space, are accepted with exactly these clocks and this offset |
| `Settings.NewConfig` | idle-governor/internal/governor/governor.go:68-96 | the constructor yields the specified configuration, and its clocks and offset are those the two settings say, in their ranges |
| `Settings.Configured` | idle-governor/internal/governor/governor.go:68-96 | exactly which options are refused; accepted ones keep their cards, counts and limits (55 degrees by default), and the clocks and offset that the two settings say |
| `Hardware.Device.Perform` | idle-governor/internal/governor/governor.go:24-35 | one call changes only its card, as its reply says, and returns an error exactly if the reply is a failure |
| `Governing.Governor.constructor` | idle-governor/internal/governor/governor.go:86-95 | one forgotten state for every listed card, no two shared, not active |
| `Governing.Governor.RestoreClocks` | idle-governor/internal/governor/governor.go:286-291 | restores the configured clock lock or none, and reports the call's error |
| `Governing.Governor.RestoreCoreOffset` | idle-governor/internal/governor/governor.go:293-298 | restores a configured offset, and does nothing without one |
| `Governing.Governor.GiveBack` | idle-governor/internal/governor/governor.go:302-307 | fan, P-state, offset and clocks in this order whatever fails, the errors joined |
| `Governing.Governor.Release` | idle-governor/internal/governor/governor.go:300-313 | the card is given back and forgotten even if calls failed; no other card changes |
| `Governing.Governor.ReleaseAll` | idle-governor/internal/governor/governor.go:315-323 | for the order the map yields, each flagged card is released once and nothing else happens |
| `Governing.Governor.Cleanup` | idle-governor/internal/governor/governor.go:328-348 | equals the specified clean-up, and returns no error exactly if no call failed on any card |
| `Governing.Governor.EnterLowPower` | idle-governor/internal/governor/governor.go:245-259 | the three calls into P8 with the roll-backs of each failure |
| `Governing.Governor.DriveFan` | idle-governor/internal/governor/governor.go:263-281 | the fan step of a card in low power |
| `Governing.Governor.PollCard` | idle-governor/internal/governor/governor.go:228-282 | one card's turn changes its hardware, its memory and the error as specified |
| `Governing.Governor.Poll` | idle-governor/internal/governor/governor.go:226-284 | the loop over the profile's cards up to the first error equals the specified tick |
| `Governing.Governor.Disable` | idle-governor/internal/governor/governor.go:350-354 | releases the flagged cards, becomes inactive, withdraws the active files |
| `Governing.Governor.Fail` | idle-governor/internal/governor/governor.go:356-363 | cleans up, becomes inactive, publishes the error |
| `Governing.Governor.SyncControl` | idle-governor/internal/governor/governor.go:175-198 | every branch of looking at the request, with the class of the error returned |
| `Governing.Governor.Enable` | idle-governor/internal/governor/governor.go:190-197 | releases, takes over the request, publishes it, and is active exactly if publishing succeeded |
| `Governing.Governor.Serve` | idle-governor/internal/governor/governor.go:153-171 | one wake-up of the loop equals one step of the specified run, and a GPU timer of an inactive governor changes nothing |
| `Governing.Governor.Begin` | idle-governor/internal/governor/governor.go:137-147 | start-up equals the specified one: a missing request is passed over |
| `Governing.Governor.Run` | idle-governor/internal/governor/governor.go:136-173 | for any sequence of wake-ups, the state before the final clean-up is the event boundary of a specified run, so every guarantee below holds of the object |
| `Runs.Boundary` | idle-governor/internal/governor/governor.go:136-173 | the state at every event boundary is defined: an active governor has validated its request and never meets a missing state entry |
| `Runs.RunInvariant` | idle-governor/internal/governor/governor.go:136-173 | the run invariant holds at the boundary after any events, under any faults |
| `Runs.StepRun` | idle-governor/internal/governor/governor.go:152-172 | one event, with any faults inside it, keeps the run invariant |
| `Guarantees.NoSilentLeak` | idle-governor/internal/governor/governor.go:136-363 | at every boundary of every run, whatever failed calls do to the cards, each control of each supported card is released, or held according to its flag, or its most recent restoring call failed, or since then a failed call about other controls changed it |
| `Guarantees.NoSilentLeakConfined` | idle-governor/internal/governor/governor.go:136-363 | where failing calls change only the control they address, each control is released, or held, or its most recent restoring call failed |
| `Guarantees.FlagsTellTheTruth` | idle-governor/internal/governor/governor.go:226-284 | a manual fan implies low power and the percentage in force (15..100); low power implies P8, unlocked clocks, cleared offset, an active governor, a supported card of the profile, and enough polls; an active governor never misses a state entry |
| `Guarantees.InactiveRests` | idle-governor/internal/governor/governor.go:149-172 | from any boundary at which the governor is inactive, no event that asks for nothing (a GPU tick, a missing or switched-off request) makes a hardware call or activates it, and GPU ticks alone make no file operation either |
| `Guarantees.Confinement` | idle-governor/internal/governor/governor.go:200-348 | only permitted calls with configured or validated values are made, and none at all to a card the filter rejects |
| `Guarantees.Debounce` | idle-governor/internal/governor/governor.go:229-260 | every P8 request, whatever its outcome, follows at least `IdleAfter` idle readings of that card without a busy or failed reading or a giving back in between |
| `Guarantees.StreakMeaning` | idle-governor/internal/governor/governor.go:229-245 | a streak is an uninterrupted tail of the log with that many idle readings |
| `Guarantees.InterlockAtEveryCall` | idle-governor/internal/governor/governor.go:245-348 | if no request to leave P8 fails and failed calls have no effect, then after every call past the start-up clean-up a card in P8 has unlocked clocks and a cleared configured offset |
| `Guarantees.ReachableReleaseRefinesCleanup` | idle-governor/internal/governor/governor.go:315-348 | at every boundary reached without faults, releasing the flagged cards in any map order equals the memory-blind clean-up on every card |
| `Recovery.ReleaseRefinesCleanup` | idle-governor/internal/governor/governor.go:315-348 | the same from any fault-free state the invariant allows |
| `Recovery.CrashRecovery` | idle-governor/internal/governor/governor.go:325-348 | from any hardware and any memory, a fault-free clean-up releases and forgets every supported card and touches no other slot |
| `Recovery.CleanupIdempotent` | idle-governor/internal/governor/governor.go:325-348 | a second fault-free clean-up changes no control and no memory |
| `Recovery.ReleasedUnique` | idle-governor/internal/governor/governor.go:325-348 | the released state is unique up to an offset that is not managed |
| `Restoration.OrderIrrelevant` | idle-governor/internal/governor/governor.go:315-323 | the map iteration order makes no difference, even under faults |
| `Restoration.ReleaseAllSlot` | idle-governor/internal/governor/governor.go:315-323 | releasing gives each visited card exactly its own release, a second visit nothing |
| `Restoration.GiveBackSettles` | idle-governor/internal/governor/governor.go:300-313 | whatever calls fail and whatever they damage, each control ends released or with an error that accounts for it |
| `Restoration.CleanupSettles` | idle-governor/internal/governor/governor.go:328-348 | whatever calls fail, a clean-up settles every control of every supported card, forgets it, and leaves other slots alone |
| `Restoration.LastRestoreFailedMeaning` | idle-governor/internal/governor/governor.go:300-348 | the third case of the no-leak guarantee: some restoring call failed and no later call restores the control |
| `Restoration.DamagedSinceMeaning` | idle-governor/internal/governor/governor.go:300-348 | the fourth case: some failed call about other controls changed this one, and no later call restores it |
| `Invariant.CleanupInv` | idle-governor/internal/governor/governor.go:328-348 | a clean-up re-establishes the invariant with nothing remembered |
| `Invariant.ReleaseAllInv` | idle-governor/internal/governor/governor.go:315-323 | releasing keeps the invariant and leaves no flag set |
| `Invariant.ReleaseAllUnflags` | idle-governor/internal/governor/governor.go:315-323 | releasing in any complete order leaves no flag set, whatever was remembered |
| `Invariant.PollFromInv` | idle-governor/internal/governor/governor.go:226-284 | an error-free tick keeps the invariant; one that stops half way keeps what a clean-up needs |
| `Invariant.TickInv` | idle-governor/internal/governor/governor.go:165-171 | a GPU tick keeps the invariant under any faults, and never meets a missing state |
| `Chronicle.PollCardChronicled` | idle-governor/internal/governor/governor.go:226-284 | every call of a turn, failed or not, respects confinement, debounce and interlock |
| `Chronicle.EnterGuarded` | idle-governor/internal/governor/governor.go:245-259 | entering P8 keeps the interlock at each of its calls, and benign failures leave the card outside P8 |
| `Chronicle.EnterAllOrNothing` | idle-governor/internal/governor/governor.go:245-259 | under one fault without effect, entering P8 happens completely or leaves the card as it was |
| `Chronicle.EnterCalls` | idle-governor/internal/governor/governor.go:245-259 | the calls that enter P8, in order, and those that put back what a failing one left behind |
| `Ticks.PollCardOk` | idle-governor/internal/governor/governor.go:226-313 | a turn returns an error exactly if one of its calls failed, including calls whose own errors are discarded |
| `Ticks.BusyForgets` | idle-governor/internal/governor/governor.go:234-242 | a card read busy is forgotten, from any memory and even if giving it back fails |
| `Ticks.SettersOnlyOnChange` | idle-governor/internal/governor/governor.go:226-284 | an error-free turn that changes no flag makes only sensor readings: the load, and in low power under a fan request the temperature |
| `Ticks.PollFromSlots` | idle-governor/internal/governor/governor.go:226-284 | a tick gives every card its own turn, independent of the others, up to the first failing one |
| `Ticks.PollOkIffNoFault` | idle-governor/internal/governor/governor.go:226-284 | a tick ends without an error exactly if no hardware call failed in it |
| `Ticks.FaultContained` | idle-governor/internal/governor/governor.go:165-170 | if any call on any card fails, the tick ends inactive with nothing remembered, and the complete restoring sequence was made afterwards on every supported card |
| `Ticks.BusyRestored` | idle-governor/internal/governor/governor.go:234-242 | in an error-free tick a card read busy is forgotten, every control settled, and every held control released |
| `Ticks.ThermalSafety` | idle-governor/internal/governor/governor.go:263-281 | after an error-free tick a manual fan belongs to a card read in that tick as idle and below the limit, at the percentage now in force |
| `History.PollCardTurn` | idle-governor/internal/governor/governor.go:229-281 | the readings of one error-free turn determine the new memory and controls |
| `RunHistory.LoopRefinesHistory` | idle-governor/internal/governor/governor.go:226-284 | after n error-free polls of a card that was not held, with m idle polls remembered, low power holds exactly if the last `IdleAfter` readings are idle, or there are fewer, all idle, and m + n >= `IdleAfter`; the fan is manual exactly if low power holds, a percentage is asked for and the latest temperature is below the limit; if the card was released, its controls are those the flags dictate |
| `History.IdleRunMeaning` | idle-governor/internal/governor/governor.go:234-245 | the idle count after m earlier idle polls is at least a exactly if the last a readings are idle, or there are fewer, all idle, and m makes up for the missing ones |
| `RunHistory.QuietStretch` | idle-governor/internal/governor/governor.go:152-172 | from any event boundary on, control ticks that repeat the request, in any interleaving, do not disturb the polls |
| `RunHistory.EnabledUnflagged` | idle-governor/internal/governor/governor.go:175-198 | when start-up or a control tick puts a request in force, no card is held, whatever calls fail |
| `RunHistory.FaultlessReleased` | idle-governor/internal/governor/governor.go:300-348 | a supported card that is not held and on which no call has failed is released |
| `RunHistory.StartIsFresh` | idle-governor/internal/governor/governor.go:136-147 | a start without a failed hardware call that ends active has released and forgotten every card of the profile |
| `RunHistory.RunRefinesHistory` | idle-governor/internal/governor/governor.go:136-284 | the history theorem over whole runs, from any event boundary at which the card is not held, whatever failed before |
| `RunHistory.ActivationRefinesHistory` | idle-governor/internal/governor/governor.go:136-284 | the same from the moment start-up or any control tick puts a request in force; without a failed call on the card before that, its controls too are a function of its readings |
| `Limits.BusyReleasedIff` | idle-governor/README.md:23-24 | exactly when a busy card is released in the same error-free poll |
| `Limits.StaleP8Survives` | idle-governor/README.md:23-30 | a run with one failed call after which a fully busy card stays in P8 without a flag |
| `Limits.DamagedInPassing` | idle-governor/internal/governor/governor.go:340-345 | a run in which P8 is left successfully and a failing clock reset puts the card back into it, without a flag and without a failed request to leave P8 |
| `Limits.FailedExitInterlock` | idle-governor/internal/governor/governor.go:300-313 | if only the request to leave P8 fails, the interlock survives exactly under neutral settings |
| `Limits.ShutdownStillAnnounced` | idle-governor/internal/governor/governor.go:140-144 | after shutdown the files still announce the control although the cards were given back |
| `Limits.MissingAtStartupKeepsFiles` | idle-governor/internal/governor/governor.go:145-147 | a missing request at start-up leaves the files of an earlier process |
| `Limits.HalfAnnounced` | idle-governor/internal/governor/governor.go:145-147 | a start that loses the second temporary file ends inactive and unreported with the new profile shown |
| `Limits.PauseKeepsCount` | idle-governor/internal/governor/governor.go:175-198 | disabling and enabling again keeps what is remembered of a card that is not held |
| `Limits.EarlyP8` | idle-governor/README.md:21-22 | a run with two idle polls configured that reaches P8 after a single poll since enabling |
| `Status.WriteAtomicShows` | idle-governor/internal/governor/status.go:41-71 | after every step readers see the old files or the whole new content, and at the end the new content exactly if the write succeeded |
| `Status.RemoveShows` | idle-governor/internal/governor/status.go:73-87 | a successful removal removes exactly that file, a failed one changes nothing |
| `Status.WriteMissingIff` | idle-governor/internal/governor/status.go:41-71 | in an existing directory a write reports "no such file" exactly if every step up to the renaming works and the temporary file is then gone |
| `Status.ErrorLineShows` | idle-governor/internal/governor/status.go:32-38 | a message is shown without outer white space, in full up to 1000 characters |
| `Status.TempNamesDiffer` | idle-governor/internal/governor/status.go:51 | temporary files of different names or different random parts never collide, and are hidden |
| `StatusWriting.Directory.Create` | idle-governor/internal/governor/status.go:52-53 | exclusive creation: an existing file is never opened |
| `StatusWriting.Directory.Rename` | idle-governor/internal/governor/status.go:63-70 | only a file brought to disk may be renamed; the target is replaced in one step, or the operation fails; it reports "no such file" when the source is gone |
| `StatusWriting.Writer.WriteAtomic` | idle-governor/internal/governor/status.go:41-71 | the sequence of file operations with its early returns and the deferred removal |
| `StatusWriting.Writer.Remove` | idle-governor/internal/governor/status.go:73-87 | a missing directory or file counts as removed |
| `StatusWriting.Writer.Active` | idle-governor/internal/governor/status.go:15-23 | both active files, then the error file is withdrawn |
| `StatusWriting.Writer.Inactive` | idle-governor/internal/governor/status.go:25-30 | both active files are withdrawn, stopping at the first error |
| `StatusWriting.Writer.Error` | idle-governor/internal/governor/status.go:32-39 | the active files are withdrawn and the error is published, trimmed and cut short, errors ignored |
| `Publication.ActiveReport` | idle-governor/internal/governor/status.go:15-23 | if publishing returns no error, both files hold the control and no error file exists |
| `Publication.ActiveSucceeds` | idle-governor/internal/governor/status.go:15-23 | publishing succeeds if file operations do and no temporary file is left over |
| `Publication.WriteCleansUp` | idle-governor/internal/governor/status.go:57-70 | a write leaves no temporary file behind, whether it succeeds or fails, if the deferred removal works |
| `Publication.FirstAnnouncement` | idle-governor/README.md:15-17 | in an empty directory publishing leaves exactly `active-profile` and `active-fan-percent` with their lines |
| `Publication.FirstReport` | idle-governor/README.md:15-17 | in an empty directory reporting an error leaves exactly `last-error` with its line |
| `Publication.InactiveReport` | idle-governor/internal/governor/status.go:25-30 | if file operations work, neither active file remains |
| `Publication.ActiveIsAnnounced` | idle-governor/internal/governor/governor.go:175-198 | at every boundary, even if file operations fail, an active governor has announced exactly its control and shows no error |
| `Publication.InactiveIsSilent` | idle-governor/internal/governor/governor.go:156-170 | if file operations work, from the first control tick on an inactive governor shows neither active file |
| `Publication.UnusableIsReported` | idle-governor/internal/governor/governor.go:157-164 | an unusable request found at a control tick ends inactive, with every card forgotten, neither active file, and the error published |
| `Publication.UnusableAtStart` | idle-governor/internal/governor/governor.go:145-147 | the same for an unusable request at start-up |
| `Publication.MissingIsQuiet` | idle-governor/internal/governor/governor.go:157-161 | a missing request at a control tick ends inactive, with no flag set and neither active file |
| `Publication.DisabledIsQuiet` | idle-governor/internal/governor/governor.go:180-183 | so does a request that is switched off |
| `Publication.UsableIsEnabled` | idle-governor/internal/governor/governor.go:175-198 | a well-formed, enabled, fitting, new request at a control tick ends active with that control, no card held, and the control announced, if file operations work and no temporary file is left over |
| `Publication.ActiveMissingIff` | idle-governor/internal/governor/status.go:15-23 | publishing reports "no such file" exactly if one of its two temporary files was taken away |
| `Publication.PublishFailureReportedIff` | idle-governor/internal/governor/governor.go:157-164 | a request that is to be put in force but cannot be published is withdrawn without a word if publishing reports "no such file", and is otherwise reported in place of the active files |
| `Publication.PublishFailureAtStart` | idle-governor/internal/governor/governor.go:145-147 | the same at start-up, where after "no such file" nothing further is done and what was published stays |
| `CrashSafety.NeverTorn` | idle-governor/internal/governor/status.go:15-71 | over whole runs, after every single file operation, each of the three status files holds what was there before the run or a complete line: of an acceptable request, or of one of the errors of this run |
| `Nvidia.SetAllOutcome` | idle-governor/internal/nvidia/nvidia.go:282-296 | success puts all fans at the percentage; failure at fan k leaves the fans above untouched and those below automatic wherever the roll-back call succeeded |
| `Nvidia.AutoAllOutcome` | idle-governor/internal/nvidia/nvidia.go:298-310 | every fan is tried, is automatic if its call succeeded, and no error is returned exactly if all succeeded |
| `Nvidia.RollBackOutcome` | idle-governor/internal/nvidia/nvidia.go:289-291 | a roll-back touches only the fans below the failed one |
| `Nvidia.ObeyRefines` | idle-governor/internal/nvidia/nvidia.go:282-310 | one command to many fans, successful or not, is one call of the one-fan model that leaves its fan showing the state of all of them: automatic, at one percentage, or different |
| `Nvidia.OneFanRefinesMany` | idle-governor/internal/nvidia/nvidia.go:282-310 | over any sequence of commands and faults the one-fan model, with suitable replies, succeeds and fails alike and shows the state of all fans |
| `Nvidia.FanBank.SetFan` | idle-governor/internal/nvidia/nvidia.go:282-296 | the loop with its inner roll-back loop equals the specification |
| `Nvidia.FanBank.SetFanAuto` | idle-governor/internal/nvidia/nvidia.go:298-310 | the loop with joined errors equals the specification |
| `Nvidia.Enumerate` | idle-governor/internal/nvidia/nvidia.go:138-185 | succeeds exactly if every card is readable and found with a handle on its bus; card i is then listed at index i with the first matching handle |
| `Nvidia.FindHandle` | idle-governor/internal/nvidia/nvidia.go:165-172 | the first card on the bus decides, even if its handle is null |
| `Nvidia.EnumeratedInOrder` | idle-governor/internal/nvidia/nvidia.go:176-181 | an enumerated list holds the indices 0..n-1, each exactly once |
| `Rebar.PciDevice.UnlockBar1` | 03-cmp50-rebar.patch:34-217 | which error is returned exactly when; every error exit restores configuration, unlock register and command word and releases the mapping; success changes only the enable and size fields; of the control entries exactly the first BAR1 entry is written, and only if its size differs although the allocation has the requested one; and from the state before the call, exactly when it succeeds |
| `Rebar.PciDevice.SelectEntry` | 03-cmp50-rebar.patch:117-207 | which entry is re-armed and with what value, and from the entries before the call, exactly when it succeeds |
| `Rebar.PciDevice.Rearm` | 03-cmp50-rebar.patch:182-203 | writes the requested size into one entry while memory decoding is off, restores the command word, and succeeds exactly if that write leaves the requested size |
| `Rebar.RewrittenField` | 03-cmp50-rebar.patch:185-190 | a re-arm changes nothing but the size field, whatever bits are writable |
| `Rebar.RearmLeavesEntryIff` | 03-cmp50-rebar.patch:182-203 | a re-arm, which is never undone, leaves the entry as it was exactly if old and requested word agree in the writable bits |
| `Rebar.FailedRearmStays` | 03-cmp50-rebar.patch:193-203 | an entry whose failed re-arm leaves it at another size than before |
| `Rebar.PciDevice.FindBar1` | 03-cmp50-rebar.patch:152-165 | finds the first BAR1 entry among the declared ones, or there is none |
| `Rebar.WriteBack` | 03-cmp50-rebar.patch:110-112 | writing the old value back undoes a write, whatever bits are writable |
| `Rebar.Encodings` | 03-cmp50-rebar.patch:25-29 | selectors 1..8 stand for encodings 7..14 and for 128 MiB doubling up to 16 GiB |
| `Rebar.OfferedBit` | 03-cmp50-rebar.patch:117-118 | a mask with the single bit e offers a selector exactly if e is the encoding it stands for |
| `Rebar.OfferedUnion` | 03-cmp50-rebar.patch:117-118 | a union of masks offers what either offers, and the empty mask nothing |
| `Rebar.SelectorBytes` | 03-cmp50-rebar.patch:177-178 | the encoding of a selector stands for the bytes of the selector |
| `Rebar.BarField` | 03-cmp50-rebar.patch:158-160 | the BAR is the remainder of an entry by 8 |
| `Rebar.CountField` | 03-cmp50-rebar.patch:152-154 | the number of entries is the three bits from bit 5 |
| `Rebar.SizeField` | 03-cmp50-rebar.patch:179-180 | the size is the five bits from bit 8 |
| `Rebar.ConfigFields` | 03-cmp50-rebar.patch:91-102 | enabled with a selector means the top bit set and the selector in the low four bits |
| `Rebar.ConfigRest` | 03-cmp50-rebar.patch:91-102 | a change inside these fields keeps the 27 bits between them |
| `Rebar.EntryRest` | 03-cmp50-rebar.patch:185-186 | a change inside the size field keeps the bits below and above it |
| `Rebar.DecodingBit` | 03-cmp50-rebar.patch:182-184 | decoding is off exactly if bit 1 is clear or cannot be written |
| `Retrain.Link.RetrainGen2` | 04-cmp50-pcie-gen2.patch:32-232 | on every exit the mapping is released and only the low four bits of Link Control 2 differ; the writes to Link Control are the first ones of at most two requests followed by both old values, so that retrains are requested endpoint first, in turn and at most twice, and Link Control is restored on each end whose last write succeeded; requests follow only when both ends hold the target speed 2; a pass is reported exactly if an endpoint status read within the at most 400 rounds shows a speed of 2 (5.0 GT/s) or more, and that read was the last; with working accesses every supported card under the policy is retrained and observed |
| `Retrain.Link.RequestAndObserve` | 04-cmp50-pcie-gen2.patch:144-222 | up to two requests, each with its window, then both old values; the second request follows a full window without a fast status |
| `Retrain.AskingRequests` | 04-cmp50-pcie-gen2.patch:144-152 | the writes of two requests set the retrain bit at the endpoint first and then in turn |
| `Retrain.RestoringRequestsNothing` | 04-cmp50-pcie-gen2.patch:219-227 | putting back words without the retrain bit, in either order, requests no retrain |
| `Retrain.WrittenRequests` | 04-cmp50-pcie-gen2.patch:144-227 | where the old words lack the retrain bit, the retrains requested by everything written are the first turns of endpoint, upstream, endpoint, upstream |
| `Retrain.RequestsBitFive` | 04-cmp50-pcie-gen2.patch:144-145 | a word requests a retrain exactly if its quotient by 32 is odd |
| `Retrain.SpeedIsTwo` | 04-cmp50-pcie-gen2.patch:108-111 | the target 5.0 GT/s is the remainder 2 by 16, and a status reaches it exactly with a remainder of at least 2 |
| `Retrain.FastIsTwo` | 04-cmp50-pcie-gen2.patch:160-162 | a status read counts as fast exactly if it worked and shows a speed of at least 2 |
| `Retrain.PolicyBits` | 04-cmp50-pcie-gen2.patch:72-77 | the policy is present exactly if bit 2 of the first register is clear and the fields at bits 18 and 17 of the others hold 2 |
| `Retrain.Link.Prepare` | 04-cmp50-pcie-gen2.patch:53-141 | the checks, reads and target speeds with every early exit; the old Link Control words are written back exactly if a step after the four reads failed, and the control word is written only with both targets read back |
| `Retrain.Link.SetTargets` | 04-cmp50-pcie-gen2.patch:108-136 | only the low four bits change, and success means both ends read back the target speed 2 |
| `Retrain.Link.Request` | 04-cmp50-pcie-gen2.patch:144-152 | writes the word with the retrain bit at the endpoint and, if that worked, at the upstream port; succeeds exactly if both writes did; Link Control stays restorable |
| `Retrain.Link.Observe` | 04-cmp50-pcie-gen2.patch:154-173 | passes in the first round whose endpoint status is read and shows a speed of 2 or more, within 200 rounds |
| `Retrain.Link.Restore` | 04-cmp50-pcie-gen2.patch:219-222 | each end is back at its original Link Control if its write succeeded |
| `SecondPass.Machine.Run` | scripts/cmp50-gen2-second-pass.sh:4-147 | however the script ends, udev is unmasked and started if it was touched and the restoring commands work, and untouched otherwise; it is touched, and cards are disturbed, only behind all guards; exit code 0 means every card is fast with at least 16000 MiB of BAR1 after the first pass, or with 16 GiB after the second, in which every card was unbound, the driver unloaded and every card reset; 130 and 143 mean a signal; and when commands work, the code is 0 exactly if nothing stands in the way |
| `SecondPass.Machine.Body` | scripts/cmp50-gen2-second-pass.sh:24-147 | wherever the body ends, the flag is set if udev was touched, and only behind all guards; with working commands it succeeds exactly if nothing stands in the way |
| `SecondPass.Machine.PassAgain` | scripts/cmp50-gen2-second-pass.sh:103-147 | the second pass itself: with working commands it succeeds exactly if the module unloads, the driver lists every card again and every card reaches its goal |
| `SecondPass.Machine.RestoreUdev` | scripts/cmp50-gen2-second-pass.sh:9-19 | does nothing without the flag; with it, working commands bring all units back |
| `SecondPass.Machine.ResetCards` | scripts/cmp50-gen2-second-pass.sh:109-122 | needs all guards and a quiet udev; unbinds every card with a driver, unloads the driver, then resets the cards in order, each once, and stops at the first failure |
| `SecondPass.Machine.CheckCards` | scripts/cmp50-gen2-second-pass.sh:24-50 | passes exactly if the caller, kernel, tools, lock and every card are acceptable |
| `SecondPass.Machine.CheckMachine` | scripts/cmp50-gen2-second-pass.sh:81-99 | passes exactly if no foreign GPU uses the driver, no device file is in use and no unit was masked |
| `SecondPass.Machine.Load` | scripts/cmp50-gen2-second-pass.sh:124-136 | asks until an answer is the full count, at most sixty times, then once more; with working commands it succeeds exactly if that last answer is the full count; between questions in vain it waits |
| `SecondPass.WaitDecides` | scripts/cmp50-gen2-second-pass.sh:55-62 | the answers of the driver decide where a wait ends and whether all cards are listed then |
| `SecondPass.ListedAfter` | scripts/cmp50-gen2-second-pass.sh:55-62 | a driver that needs up to fifty-nine rounds to list every card, and keeps listing them, is waited for |
| `Agreement.SupportedNumbers` | idle-governor/internal/governor/governor.go:329-338 | the filter in plain numbers: device, the two subsystem words, and 19.5 to 20.5 GiB |
| `Agreement.RefusalNames` | idle-governor/internal/governor/governor.go:206-221 | a refusal names the first of position, device, subsystem and memory size that is wrong |
| `Agreement.EnumeratedNumbers` | idle-governor/internal/nvidia/nvidia.go:176-181 | an enumerated card is supported exactly if the driver's combined word holds the device in its high half, and subsystem and memory are right |
| `Agreement.KernelAgrees` | 04-cmp50-pcie-gen2.patch:20-30 | the kernel routines accept the boards that the governor accepts, apart from the memory size |
| `Agreement.ScriptAgrees` | scripts/cmp50-gen2-second-pass.sh:44-49 | the boot script accepts the printed subsystem of a card exactly if the governor does |
| `Agreement.ProfileNames` | idle-governor/internal/governor/config.go:16-22 | the profiles are named after their number of cards: one, two, four, six and eight |

## Left out

- Governing.Governor.Run: ends when its list of wake-ups is used up, which stands for cancellation; tickers and real time are not modelled, so every interleaving of ticks is covered.
- Hardware.Device.Perform: the order of calls across different cards is not recorded, only the order on each card; no property here depends on it.
- Cards.LoadControl: starts from the decoded request; JSON, file size, link and descriptor checks are library and system behaviour.
- StatusWriting.Writer.Error: the wording of errors is left to the caller, and the text is cut after 1000 characters; the code counts bytes, which differs for text outside ASCII.
- StatusWriting.Directory.Rename: of what other programs do, only the removal of a temporary file before its renaming is modelled; they do not change the published files or remove the directory while the governor runs.
- Settings.ParseClock: the 32-bit number parsers of the Go library are modelled by their documented results, not by their code.
- Nvidia.Enumerate: loading the two libraries, their handles and structures, and the index check before each call are not modelled; each query is an answer or a failure.
- Rebar.PciDevice.UnlockBar1: the control entry is not restored after a failed re-arm because the code does not restore it; the capability registers beyond the eight entries and the probe that calls the routine are not modelled. PCI constants are those of Linux 6.8.
- Retrain.Link.RetrainGen2: the target speeds are not put back because the code does not put them back; delays, link training itself, concurrent register access and the upstream status, which is only logged, are not modelled.
- SecondPass.Machine.RestoreUdev: a further signal that arrives while the exit handler is running is not modelled.
- SecondPass.Machine.Run: what the guards look at does not change between the check and the action.
- Logging, the signed firmware payload of 01-cmp50-stockflow.patch, the one-line 02-cmp50-rt-core-count.patch, the installers and the probing tools: no state to reason about, or no visible semantics.
