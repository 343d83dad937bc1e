# Relay safety and stateful engines of the generator monitor

This project models two programs that work together and proves properties of the models.

The **ATS companion** (`ats-pi-companion-main`) sits beside a transfer switch. Modbus clients read
its registers and write four command registers; it drives four relays. Inhibit and forced transfer
are maintained: they stay on until somebody releases them, so a watchdog releases them when the
commanding client goes silent. Test and bypass are pulses with a release task each. The models of
its store, write guard, connection tracker, watchdog, driver, sampling loop and state file are
objects whose methods are proved against functions on values; `Protocol` puts those functions
together as one timed transition system in which requests, disconnects, watchdog rounds, dispatched
commands, sampling cycles, pulse tasks, failed and half-failed relay writes and restarts interleave
in any order. Its theorems are about every run.

**GenWatch** (`GenWatch-main`) polls a generator controller and the companion. Each of its engines
keeps compressed state - counters, bounded windows, one float, a dictionary. Each is proved against
the whole history: the read batching against all divisions, the cache against what the client
returned, the link classifier against unbounded windows, the token bucket against all admission
windows, the fuel monitor against all readings, the confirm tokens against the log of issues, the
MQTT reader against the stream of bytes. `Contract` joins the two programs: what the companion finds
arrives at GenWatch, and what an operator commands at GenWatch moves the relay it names.

The numbers that the documentation promises (30 s, 86400 s, 2048 readings, register addresses, command
values, engine states) are written out in the theorems, so that they do not rest on the constants and
predicates of the models.

## Files

| file | what it covers |
|---|---|
| `Store.dfy`, `FaultWord.dfy` | register store, write guard; the fault word recomputed from history |
| `Adam.dfy`, `Debounce.dfy` | relay driver, input debouncer |
| `Watchdog.dfy` | comms-loss watchdog, connection tracker |
| `Protocol.dfy`, `BoundedRelease.dfy` | the transition system and what every step keeps; bounded release and non-interference |
| `ReleaseRaces.dfy`, `PulseProtocol.dfy`, `FailSafeGate.dfy` | what happens outside orderly scheduling, pulses, the fail-safe gate |
| `Commands.dfy`, `FaultReports.dfy` | from the words of a write to the relay and back; what the fault bits say over whole runs |
| `Contract.dfy` | GenWatch's own map of the companion against what the companion serves and does |
| `Persistence.dfy`, `TransferCounter.dfy` | crashable saves; durable lifetime count and 24-hour window |
| `Registers.dfy`, `Poller.dfy`, `LinkHealth.dfy` | decoding, batching, validation; polling and cache; link classifier |
| `RateLimit.dfy`, `Fuel.dfy`, `Control.dfy`, `Mqtt.dfy` | token bucket, fuel monitor, confirm tokens and control gates, MQTT wire code |
| `Prelude.dfy` | Option and Result |

`dafny verify dfyconfig.toml` checks the project.

## Assumptions made explicit

- Floats and times are reals; integers are unbounded, and register words are cut to 16 bits where the
  code does so. Fault words are sets of bit numbers.
- Steps are atomic between the points where the program awaits: a dispatched command passes its checks in
  one step and is written in a later one, with anything in between, a reconnect's verdict included.
- Of two pulses on the same relay, the second does not reach its checks while the first is between its
  checks and its write. (Otherwise both would start, and one release task would be forgotten.)
- `Protocol.Orderly`: when a watchdog release begins no accepted assertion is still waiting to be
  written, and none is accepted while the release is under way. `ReleaseRaces` shows that each half
  is needed, and `LatchIsSoundExactlyWhen` that nothing more is.
- `BoundedRelease.Punctual`: from one landed watchdog round to the end of the next at most `gap` seconds pass.
- `TransferCounter.Regular`: the save of a transfer does not fail, no background save is on its way when a
  transfer is saved, a process that died between the rename and the directory flush of a transfer's save is
  not restarted over that disk before a power loss has settled it, and the wall clock does not go backwards.
  `FailedSaveExactlyWhen`, `OvertakenExactlyWhen` and `KilledSaveExactlyWhen` show that each of the first
  three is exactly what is needed. Background saves may fail, stop anywhere and overtake one another.
  Reading the state file at a start does not fail.
- A relay write is acknowledged, takes effect with its reply lost, or never arrives.
- The clocks of the limiter, the fuel monitor and the link classifier do not go backwards.
- The confirm tokens' clock is read twice in a spend, to evict and to check; both readings are inputs.
- In `LinkHealth` the percentage is kept in tenths, as the code rounds it; a tie may go either way.

## Where the code differs from its own documentation

The models follow the code.

- `server.py:199-220` promises that a reader on a second connection cannot suppress the release and
  that a dropped commander is released at once. Once the commander has dropped, any request re-arms the
  watchdog and withdraws the drop: `BoundedRelease.ReaderKeepsRelayLatched`, and exactly when the promise
  holds in `BoundedRelease.DroppedCommanderIsReleased`.
- `safety.py:103-108` latches the release once its writes return, but a command accepted meanwhile, or
  one still waiting to be dispatched, is written afterwards and is not released again:
  `ReleaseRaces.CommandDuringRelease`, `CommandOvertakenByRelease`.
- `io_adam.py:406-415` says that no output is ever asserted while the fail-safe is unverified. The gate is
  asked once per call; a reconnect inside the write can find the fail-safe unverified, and the write goes
  ahead: `FailSafeGate.VerdictFailsBeforeWrite`, exactly when in `UnverifiedAssertionExactlyWhen`.
- `io_adam.py:595-611` schedules the release of a pulse only after its write has returned, so a write
  that took effect without a reply strands the relay until another pulse on it is acknowledged or the
  service restarts: `PulseProtocol.LostReplyStrandsRelay`, exactly in `StrandedStep`.
- `state.py:239-246` saves a transfer before serving its count; a background save issued earlier can
  still land later and put the old count back: `TransferCounter.OvertakenExactlyWhen`. A save that fails
  is passed over and the count served: `FailedSaveExactlyWhen`.
- `persistence.py:67-76` promises that a crash leaves the old state or the new. The service is restarted when
  it dies or hangs, and a start flushes nothing: a process killed between the rename and the directory flush
  is followed by one that serves a transfer which a later power loss takes back. The count runs backwards:
  `TransferCounter.KilledSaveRunsBackwards`, exactly when in `KilledSaveExactlyWhen`.
- `server.py:160-171` pins one time for a multi-word read so that no counter is torn. GenWatch's
  fan-out after a failed batch reads the two words one by one: `Contract.CountArrivesAsZero`, exactly
  when in `FanOutTearsExactlyWhen`.
- `poller.py:280-285` says that one success cannot un-lose the link after a silence; it can:
  `LinkHealth.OneSuccessAfterSilence`.
- `ratelimit.py:53-54` promises the time after which a check succeeds; it is rounded down:
  `RateLimit.RetryAdviceWorksExactlyWhen`.
- `registers.py:309-313` does not see an overlap with an earlier register whose name is empty:
  `Registers.UnnamedOverlapPasses`, and the exact verdict in `Registers.ValidateRegisters`.
- `fuel.py:139-145` promises one warning for an oscillating level; with a hysteresis of zero or less a
  level resting on a threshold alternates, and that is exactly when: `Fuel.NoMarginChattersAtWarn` and
  `WarnLatchExactlyWhen`, `NoMarginChatters` and `LatchExactlyWhen`. `fuel.py:287-291` promises one drop
  alert per window; one stamped 0.0 does not count: `Fuel.AlertAtZeroRepeats`, exactly in
  `Fuel.AlertMutesExactly`. The service calls the monitor without a time of its own, so the wall clock
  stamps the alerts and never with 0.0; only a caller that passes its own times can see this.
- `mqtt.py:63-64` speaks of one to four bytes; nothing stops a longer field: `Mqtt.LengthRoundTrip`. An
  over-long topic raises an error that the session does not catch: `Mqtt.PublishOnce`, outcome `Raised`.

## Model

Rows name members whose contracts state something; functions that only compute are pinned by the
methods and lemmas about them. `ats-pi-companion-main/src/atspi` and
`GenWatch-main/backend/genwatch` hold the sources.

| member | source | states |
|---|---|---|
| BoundedRelease.SilentCommanderIsReleased | ats-pi-companion-main/src/atspi/safety.py:78-122 | Bounded release: in every orderly run, once the commander has been silent for 30 s plus one watchdog gap, with no other command write, inhibit and force are off, whatever was asserted before |
| BoundedRelease.SilenceIsThirtySeconds | ats-pi-companion-main/src/atspi/safety.py:88-90 | And not before: while the commander stays connected and nobody else commands, a tick begins a release if and only if more than 30 s have passed since its last request and it has not been done |
| BoundedRelease.AttendedRelayStaysOn | ats-pi-companion-main/src/atspi/server.py:228-253 | While the commander asks at least every 30 s, a maintained relay that is on stays on until somebody commands otherwise, whatever other clients, the watchdog, the pulses and the sampling loop do |
| Protocol.ReleasedMeansOff | ats-pi-companion-main/src/atspi/safety.py:103-122 | Over every orderly run, whenever the watchdog believes it has released, both relays are off and no accepted assertion is waiting |
| Protocol.SafeStep | ats-pi-companion-main/src/atspi/safety.py:90-122 | Each kind of step keeps that invariant |
| Protocol.SafeTickWrite | ats-pi-companion-main/src/atspi/safety.py:110-122 | The writes of a release keep it, however they go: the latch is set only after both |
| Protocol.SafeRequest | ats-pi-companion-main/src/atspi/server.py:228-247 | A request keeps it: an accepted assertion always comes with a re-armed watchdog |
| Protocol.SafeDispatch | ats-pi-companion-main/src/atspi/__main__.py:219-233 | A dispatched command keeps it, at its checks and at its write |
| Protocol.WriteEffect | ats-pi-companion-main/src/atspi/__main__.py:219-233 | The write of a command that is not a maintained assertion switches no maintained relay on |
| Protocol.BeginEffect | ats-pi-companion-main/src/atspi/__main__.py:219-233 | A command reaching its checks touches no relay, and leaves no assertion on its way where there was none |
| Protocol.DispatchIsCall | ats-pi-companion-main/src/atspi/__main__.py:219-233 | A dispatch that nothing disturbs, reconnect included, is exactly one call of the driver with its fault bit |
| Protocol.CoilsFrame | ats-pi-companion-main/src/atspi/__main__.py:157-216 | No event but the two writes that put a command on its relay switches a relay on |
| Protocol.ResetIsReleaseAll | ats-pi-companion-main/src/atspi/__main__.py:164-176 | The start-up reset, undisturbed, is one release of all outputs: it completes exactly if all four writes return, with all relays off and no release task left; otherwise it is to be done again and the input fault is set |
| Protocol.RestartKeepsRelays | ats-pi-companion-main/src/atspi/io_adam.py:248-310 | A restart leaves the relays as they are and remembers nothing else |
| BoundedRelease.SilentRun | ats-pi-companion-main/src/atspi/safety.py:88-122 | Along a silent stretch the time of the last request stands still and the relays are released no later than the first landed round after the timeout |
| BoundedRelease.FailedReleaseIsRetried | ats-pi-companion-main/src/atspi/safety.py:110-121 | However many releases have failed, every tick past the timeout begins another attempt |
| Protocol.RoundIsTick | ats-pi-companion-main/src/atspi/safety.py:88-122 | An undisturbed round of the transition system, reconnects included, is exactly one tick of the watchdog object |
| Protocol.AcceptedWriterCommands | ats-pi-companion-main/src/atspi/server.py:118-142 | Whoever has a holding write of one or more words accepted is the commander at that moment and has re-armed the watchdog, whatever the words mean; the commands on their way grow by one for each in-pattern word |
| Protocol.SpawnedByCommander | ats-pi-companion-main/src/atspi/server.py:173-177 | Commands come from nothing else |
| BoundedRelease.NoiseErases | ats-pi-companion-main/src/atspi/server.py:228-253 | Non-interference: erasing everything that non-commanding clients do short of a command write, disconnects included, changes no state at any point of any run |
| BoundedRelease.NoiseDoesNothing | ats-pi-companion-main/src/atspi/server.py:241-253 | One such event leaves the whole state as it was |
| BoundedRelease.WhoRearms | ats-pi-companion-main/src/atspi/server.py:228-247 | Exactly which requests reach the watchdog, and who commands after them: holding writes that begin at 0x0100 to 0x0103, the commander's own, and any at all while nobody commands; every other leaves the state alone |
| BoundedRelease.DroppedCommanderIsReleased | ats-pi-companion-main/src/atspi/server.py:249-253 | After a drop the next tick tries to release if and only if no request by anybody came in between and it was not released already; after a request, only 30 s of silence count; other clients may disconnect at will |
| BoundedRelease.DroppedCommanderGoesOff | ats-pi-companion-main/src/atspi/safety.py:88-122 | In every orderly run, one watchdog gap after a drop that no request follows both maintained relays are off, whatever was asserted |
| BoundedRelease.DroppedRun | ats-pi-companion-main/src/atspi/safety.py:88-122 | Until a round that began after the drop has landed the watchdog stays due |
| BoundedRelease.BetweenDropAndTick | ats-pi-companion-main/src/atspi/safety.py:46-67 | A single request after the drop withdraws the drop and re-arms the watchdog |
| BoundedRelease.ReaderKeepsRelayLatched | ats-pi-companion-main/src/atspi/server.py:241-244 | The documented immediate release fails: for every n an orderly run of 10 n seconds with one polling reader leaves a forced transfer latched with nobody commanding |
| BoundedRelease.ClocksRun | ats-pi-companion-main/src/atspi/safety.py:88-90 | No clock reading kept in the state is ever in the future |
| ReleaseRaces.LatchIsSoundExactlyWhen | ats-pi-companion-main/src/atspi/safety.py:109-122 | Latching the release is sound (both relays off in every continuation without requests) if and only if no accepted assertion is on its way to the relay and the inhibit relay is off at that moment |
| ReleaseRaces.TaskReasserts | ats-pi-companion-main/src/atspi/__main__.py:286-289 | An assertion that has not reached its checks can still be written after the latch |
| ReleaseRaces.GatedReasserts | ats-pi-companion-main/src/atspi/io_adam.py:428-435 | So can one that has passed them |
| ReleaseRaces.NothingReasserts | ats-pi-companion-main/src/atspi/__main__.py:286-289 | Without requests and waiting assertions no relay that is off comes back on |
| ReleaseRaces.LatchedWatchdogLooksOn | ats-pi-companion-main/src/atspi/safety.py:90 | Once latched, no length of silence makes the watchdog act |
| ReleaseRaces.CommandDuringRelease | ats-pi-companion-main/src/atspi/safety.py:109-122 | A command accepted while a release is under way is written after it and stays on through any silence, the watchdog latched |
| ReleaseRaces.CommandOvertakenByRelease | ats-pi-companion-main/src/atspi/__main__.py:286-289 | A command that has passed its checks when its sender drops is written after the release and stays on through any silence |
| Watchdog.SafetyWatchdog.constructor | ats-pi-companion-main/src/atspi/safety.py:32-44 | Starts unreleased, counting from now |
| Watchdog.SafetyWatchdog.NoteModbusRead | ats-pi-companion-main/src/atspi/safety.py:46-57 | Restarts the clock and withdraws both flags |
| Watchdog.SafetyWatchdog.NoteCommanderLost | ats-pi-companion-main/src/atspi/safety.py:59-67 | Sets the drop flag and nothing else |
| Watchdog.SafetyWatchdog.Tick | ats-pi-companion-main/src/atspi/safety.py:88-122 | Does nothing unless more than 30 s have passed or the commander has dropped, and the release is not done; when due clears the read-back, drives both relays off, and latches exactly if both writes returned: then both are off, otherwise it is still due |
| Watchdog.ConnectionTracker.constructor | ats-pi-companion-main/src/atspi/server.py:224-226 | Starts without a commander |
| Watchdog.ConnectionTracker.OnRequest | ats-pi-companion-main/src/atspi/server.py:228-247 | The new commander and watchdog state after any request |
| Watchdog.ConnectionTracker.OnDisconnect | ats-pi-companion-main/src/atspi/server.py:249-253 | Only the commander's disconnect clears the commander and sets the drop flag |
| Adam.IOAdamDriver.constructor | ats-pi-companion-main/src/atspi/io_adam.py:248-310 | Starts with no command recorded and no release task, over relays left as they were |
| Adam.IOAdamDriver.WriteAndRecord | ats-pi-companion-main/src/atspi/io_adam.py:654-709 | A write may reconnect, which sets the fail-safe verdict anew, and then goes ahead whatever that is; one whose reply is lost takes effect without being recorded |
| Adam.IOAdamDriver.StartOf | ats-pi-companion-main/src/atspi/io_adam.py:595-611 | A pulse is ignored while one is active, and a release task exists only after a write that returned |
| Adam.IOAdamDriver.DriveOutputs | ats-pi-companion-main/src/atspi/io_adam.py:398-437 | The gate refuses before any write and is not asked again, though each write may change the verdict; the four parts run in order and stop at the first error |
| Adam.IOAdamDriver.ReleaseAllOutputs | ats-pi-companion-main/src/atspi/io_adam.py:439-457 | Cancels both release tasks; if it completes, all four relays are off |
| Adam.UnverifiedCallExactlyWhen | ats-pi-companion-main/src/atspi/io_adam.py:416-425 | A call leaves its relay newly on with the fail-safe unverified if and only if the command passed the checks, its write reconnected to a module that fails the check, and the write arrived |
| Adam.IOAdamDriver.Attempt | ats-pi-companion-main/src/atspi/io_adam.py:626-650 | One attempt: the relay as the write left it, the release task over if the write returned, else due again after the retry time |
| Adam.IOAdamDriver.FirstAttempt | ats-pi-companion-main/src/atspi/io_adam.py:613-650 | The first attempt records the relay as commanded off and starts the count of how long it overstays |
| Adam.IOAdamDriver.NextAttempt | ats-pi-companion-main/src/atspi/io_adam.py:626-650 | Each further one keeps that moment, over at the first write that returns |
| Adam.IOAdamDriver.Release | ats-pi-companion-main/src/atspi/io_adam.py:613-650 | A release task tries until a write returns, then is over with the relay off; until then it is still trying |
| Adam.IOAdamDriver.CheckOutputConsistency | ats-pi-companion-main/src/atspi/io_adam.py:463-490 | True exactly if no relay commanded more than the settling time ago differs from its command |
| Adam.ReleaseFromEffect | ats-pi-companion-main/src/atspi/io_adam.py:439-457 | It completes exactly if all writes return; an incomplete one has still switched nothing on, and completion means off |
| Adam.UnarmedNeverAsserts | ats-pi-companion-main/src/atspi/io_adam.py:398-437 | A call that begins while the fail-safe is unverified leaves no relay newly on, whatever its writes do and find |
| Adam.FiringStops | ats-pi-companion-main/src/atspi/io_adam.py:646-650 | After the write that returned, further wake-ups of the release task do nothing |
| Adam.IntentIsCall | ats-pi-companion-main/src/atspi/__main__.py:219-233 | The driver call with one argument is the checks of that command, what a reconnect finds, and its write |
| PulseProtocol.PulseStep | ats-pi-companion-main/src/atspi/io_adam.py:595-650 | Every event keeps the pulse invariant (a pulsed relay that is on has a release to come, and counts as commanded off once it was tried) if and only if it is not a pulse start whose reply is lost |
| PulseProtocol.NoPulseIsOrphaned | ats-pi-companion-main/src/atspi/io_adam.py:595-650 | Hence over all runs, restarts included, no pulsed relay is ever on without a release to come, as long as no start loses its reply |
| PulseProtocol.BootHasPulseInv | ats-pi-companion-main/src/atspi/__main__.py:164-176 | Every start of the service satisfies it, whatever the relays were left at |
| PulseProtocol.ReleaseComesOnTime | ats-pi-companion-main/src/atspi/io_adam.py:605-615 | The first release attempt comes exactly at the scheduled moment however often the pulse is re-triggered, and until then the relay stays on; never earlier, even without prompt wake-ups |
| PulseProtocol.LateRelease | ats-pi-companion-main/src/atspi/io_adam.py:613-630 | The same once the moment has passed unnoticed |
| PulseProtocol.WaitingStep | ats-pi-companion-main/src/atspi/io_adam.py:596-603 | While a release is pending no event touches the release task or the relay, and a second pulse leaves the driver as it was |
| PulseProtocol.PulseStarts | ats-pi-companion-main/src/atspi/io_adam.py:605-611 | The release is due as many milliseconds after the write returned as were asked for, but no less than 0.5 s and no more than 1.5 s |
| PulseProtocol.OverstayIsReported | ats-pi-companion-main/src/atspi/io_adam.py:463-490 | At any moment of any run, lost replies included, a pulsed relay that is on with no release pending was last recorded off at some time, and from half a second after that every sampling cycle publishes the output fault |
| PulseProtocol.OffRecordedStep | ats-pi-companion-main/src/atspi/io_adam.py:595-650 | Every event keeps this: a pulsed relay with no release pending and no reset to come is recorded off |
| PulseProtocol.ReleasingSinceRecorded | ats-pi-companion-main/src/atspi/io_adam.py:618-624 | While a release is being tried, the recorded time is that of its first attempt |
| PulseProtocol.ReleasingStep | ats-pi-companion-main/src/atspi/io_adam.py:618-650 | While a release is being tried nothing but its own next attempt touches it or its relay; that comes no sooner than 0.25 s after the last, switches the relay off unless the write is lost, and is the last one if the write returns |
| PulseProtocol.OutputFaultExactlyWhen | ats-pi-companion-main/src/atspi/io_adam.py:463-490 | No false alarm: in every run without lost replies a sampling cycle raises the output fault if and only if the fail-safe is unverified or a pulsed relay is still on half a second after its release was first tried |
| PulseProtocol.RecordStep | ats-pi-companion-main/src/atspi/io_adam.py:654-709 | Every event but a lost reply keeps the records true: a relay is what was recorded unless its release is being tried or the start-up reset is still to write it |
| FaultReports.FaultRegisterFromRun | ats-pi-companion-main/src/atspi/state.py:379-386 | Over every run of the whole companion, bit 1 of the fault register shows if and only if an output has failed (a refused command, a write that did not return, a start or a cycle with the fail-safe unverified, a relay that is not as commanded) with none succeeding since; bit 0 the same for the inputs, or a pending rejection |
| FaultReports.FaultsFromRun | ats-pi-companion-main/src/atspi/__main__.py:157-233 | The same from any state |
| FaultReports.FaultStep | ats-pi-companion-main/src/atspi/__main__.py:157-233 | Exactly what each event makes of the two bits |
| PulseProtocol.LostReplyStrandsRelay | ats-pi-companion-main/src/atspi/io_adam.py:606-611 | A pulse start whose reply is lost leaves the relay on with no release task until the write of another pulse on it returns or the service restarts |
| PulseProtocol.StrandedStays | ats-pi-companion-main/src/atspi/io_adam.py:606-611 | It stays so through any run without those two |
| PulseProtocol.StrandedStep | ats-pi-companion-main/src/atspi/io_adam.py:606-611 | An event ends it if and only if it is one of those two |
| FailSafeGate.UnverifiedAssertionExactlyWhen | ats-pi-companion-main/src/atspi/io_adam.py:406-437 | Over every run a relay comes on only by the write of a command that asserts it and passed the gate earlier, with no restart since; and the fail-safe is unverified at that write if and only if a failing verdict with no passing one after it came between gate and write |
| FailSafeGate.VerdictFailsBeforeWrite | ats-pi-companion-main/src/atspi/io_adam.py:701-709 | Such a run: a reconnect finds the fail-safe unverified after the gate, and the forced transfer is switched on |
| FailSafeGate.OnlyGatedCommandsAssert | ats-pi-companion-main/src/atspi/io_adam.py:398-437 | The step that switches a relay on is the write of a command past its gate that asserts that relay |
| FailSafeGate.GatedSince | ats-pi-companion-main/src/atspi/io_adam.py:416-425 | What is past the gate now passed it at some event of the run, with no restart since |
| FailSafeGate.UnverifiedIsFailedSince | ats-pi-companion-main/src/atspi/io_adam.py:312-330 | For a command that passed the gate, unverified now means found unverified since |
| FailSafeGate.PastGateStep | ats-pi-companion-main/src/atspi/io_adam.py:416-425 | Nothing gets past the gate but by its checks |
| Store.GuardedWriteEffect | ats-pi-companion-main/src/atspi/server.py:118-142 | A holding write is accepted exactly if every word is a command register open in the mode; accepted, it yields one command per in-pattern word in order; refused, none; and no register served changes but the mode-reject bit |
| Store.GuardWordsExact | ats-pi-companion-main/src/atspi/server.py:121-129 | The word-by-word check accepts exactly the permitted ranges and touches nothing but the latch |
| Store.WriteWordsExact | ats-pi-companion-main/src/atspi/state.py:507-536 | In a permitted range each in-pattern word gives exactly one command, others none, and the first command clears the latch |
| Store.GuardedContext.constructor | ats-pi-companion-main/src/atspi/server.py:114-116 | Guards the given store |
| Store.GuardedContext.ValidateRequest | ats-pi-companion-main/src/atspi/server.py:118-142 | Decides every function code as specified and latches at the first word refused |
| Store.GuardedContext.SetValues | ats-pi-companion-main/src/atspi/server.py:173-177 | Dispatches the commands of the words in order |
| Store.RegisterStore.constructor | ats-pi-companion-main/src/atspi/state.py:180-193 | Loads the counters and of the persisted times exactly those in the window |
| Store.RegisterStore.ApplyInputSnapshot | ats-pi-companion-main/src/atspi/state.py:197-299 | The whole new snapshot, and whether the state is saved first, in the background, or not |
| Store.RegisterStore.EvictOldTransfers | ats-pi-companion-main/src/atspi/state.py:540-543 | Drops times from the front while they are older than the window |
| Store.RegisterStore.ApplyOutputState | ats-pi-companion-main/src/atspi/state.py:301-312 | Replaces the read-backs only |
| Store.RegisterStore.SetInputFault | ats-pi-companion-main/src/atspi/state.py:314-318 | Sets or clears its own fault bit only |
| Store.RegisterStore.SetOutputFault | ats-pi-companion-main/src/atspi/state.py:320-324 | Sets or clears its own fault bit only |
| Store.RegisterStore.ReleaseMaintainedCommands | ats-pi-companion-main/src/atspi/state.py:326-338 | Clears the two maintained read-backs and keeps the other two |
| Store.RegisterStore.MayWrite | ats-pi-companion-main/src/atspi/state.py:443-469 | Answers by register and mode, and latches a mode rejection |
| Store.RegisterStore.Write | ats-pi-companion-main/src/atspi/state.py:471-536 | The command a value stands for, and what becomes of the latch |
| Store.TwoWordsCarryField | ats-pi-companion-main/src/atspi/state.py:388-414 | Two neighbouring registers put each 32-bit field together again, high word first, modulo 2^32, both words in range |
| Store.GuardedContext.GetValues | ats-pi-companion-main/src/atspi/server.py:157-171 | A read of several registers serves all of them at one time, so every 32-bit field at its start is coherent |
| Commands.OneWordCommands | ats-pi-companion-main/src/atspi/state.py:443-536 | A one-word write is accepted for 0x0100 to 0x0103 in automatic mode and for 0x0101 in manual too, in no other mode or place; 1 puts the pulse or assertion of its own register on its way, 0 the release of inhibit or force, any other word nothing |
| Commands.ManyWordsCommand | ats-pi-companion-main/src/atspi/server.py:118-142 | A write of several words is accepted as a whole or not at all, and means the same as its words written one at a time |
| Commands.MaintainedWordMovesRelay | ats-pi-companion-main/src/atspi/__main__.py:219-233 | An accepted 0 or 1 for inhibit or force, written over a link that acknowledges: that relay is off or on as the word says and no other has moved; a 0 needs no verified fail-safe |
| Commands.PulsedWordMovesRelay | ats-pi-companion-main/src/atspi/__main__.py:219-233 | An accepted 1 for test or bypass: that relay is on, due to be released 0.75 s later, and no other has moved |
| Commands.OtherWordsDoNothing | ats-pi-companion-main/src/atspi/state.py:507-536 | A word out of pattern or refused queues nothing and moves no relay |
| Commands.OtherRequestsDoNothing | ats-pi-companion-main/src/atspi/server.py:118-142 | No request but a holding write changes the store, the relays or the commands on their way; register reads are always accepted, coil writes and combined requests never |
| Commands.StartServes | ats-pi-companion-main/src/atspi/state.py:180-193 | Before its first cycle a process serves position and mode unknown, no fault and no relay, and the saved times and count |
| Commands.ReadBackIsRelay | ats-pi-companion-main/src/atspi/state.py:301-312 | After a sampling cycle each read-back register is its own relay |
| Commands.ReleaseClearsReadBack | ats-pi-companion-main/src/atspi/state.py:326-338 | A release clears the two maintained read-backs and no other register |
| Contract.CommandMovesRelay | GenWatch-main/backend/genwatch/registers/ats_pi.yaml:98-104 | From the operator to the relay: what GenWatch's switch control lets through is one word by its own map that, in automatic mode with the fail-safe verified, leaves the named relay on or off as the operator said and moves no other |
| Contract.SampleArrives | GenWatch-main/backend/genwatch/services/ats.py:56-71 | From the contacts to GenWatch: what its map and tables make of a poll after a sampling cycle is what that cycle found, of position, sources, call, mode and all four relays |
| Contract.StateArrives | GenWatch-main/backend/genwatch/registers/ats_pi.yaml:63-68 | The same for whatever is in the companion's store |
| Contract.RelaysArrive | GenWatch-main/backend/genwatch/registers/ats_pi.yaml:90-93 | And for its read-backs |
| Contract.FaultsArrive | GenWatch-main/backend/genwatch/registers/ats_pi.yaml:51-58 | GenWatch's four masks find exactly the defined faults, a pending rejection among them |
| Contract.CountersArrive | GenWatch-main/backend/genwatch/registers/ats_pi.yaml:71-78 | The two times, the uptime, the clock and the two counts arrive modulo 2^32 |
| Contract.IdentityArrives | GenWatch-main/backend/genwatch/registers/ats_pi.yaml:81-86 | And the identification in sixteen bits |
| Contract.ReturnedIsServed | ats-pi-companion-main/src/atspi/server.py:157-171 | The words a poll returns for a register are the ones served at its address, whichever batch or single read brought them |
| Contract.MapsAreApart | GenWatch-main/backend/genwatch/registers/ats_pi.yaml:61-93 | No register of the map shares a word with another of its tier |
| Contract.PollBringsTier | GenWatch-main/backend/genwatch/modbus/poller.py:292-404 | The reads that batching makes for a tier of it bring every register of the tier |
| Contract.FanOutTearsExactlyWhen | GenWatch-main/backend/genwatch/modbus/poller.py:431-462 | When a batch has failed and the two words of the count are read before and after a change, the later count arrives if and only if its high word had not changed |
| Contract.CountArrivesAsZero | GenWatch-main/backend/genwatch/modbus/poller.py:431-462 | From 65535 to 65536 it arrives as 0 |
| FaultWord.FaultWordFromHistory | ats-pi-companion-main/src/atspi/state.py:379-386 | After any sequence of store operations from a start, the word served at 0x0005 is recomputed from the history: bit 0 the last input fault or a pending rejection, bit 1 the last output fault, bits 2 and 3 the driver's last word, all others clear |
| FaultWord.OwnedBits | ats-pi-companion-main/src/atspi/state.py:314-324 | Bits 0 and 1 of the stored word are the last values their owners set, snapshots notwithstanding |
| FaultWord.DriverBits | ats-pi-companion-main/src/atspi/state.py:265-268 | Bits 2 and 3 are those of the driver's last snapshot |
| FaultWord.LatchFromHistory | ats-pi-companion-main/src/atspi/state.py:494-522 | The latch is on exactly if some write was rejected and no command has been accepted since |
| FaultWord.ModeIsLastSnapshots | ats-pi-companion-main/src/atspi/state.py:270-275 | The mode in force is that of the last snapshot, unknown before the first |
| FaultWord.BitStep | ats-pi-companion-main/src/atspi/state.py:260-268 | What one operation does to one stored bit, for each owner |
| Debounce.FlipsExactlyAfterSamples | ats-pi-companion-main/src/atspi/io_adam.py:224-239 | A published bit flips exactly when the channel's last `samples` raw readings all differ from it; the first reading is published at once |
| Debounce.CountIsTrailingRun | ats-pi-companion-main/src/atspi/io_adam.py:231-238 | The counter is the length of the run of disagreeing readings at the end of the stream |
| Debounce.Debouncer.constructor | ats-pi-companion-main/src/atspi/io_adam.py:219-222 | At least one sample; nothing published yet |
| Debounce.Debouncer.Count | ats-pi-companion-main/src/atspi/io_adam.py:231-238 | Each channel steps by its own reading alone |
| Debounce.Debouncer.Update | ats-pi-companion-main/src/atspi/io_adam.py:224-239 | Every channel publishes what its own stream alone decides, so channels never influence each other; a read of another width starts all streams anew |
| Persistence.SaveIsAtomic | ats-pi-companion-main/src/atspi/persistence.py:67-105 | Power lost after any number of steps of a save leaves the old state or the new one: before the rename the old, after the directory flush the new, in between either |
| Persistence.SaveAdds | ats-pi-companion-main/src/atspi/persistence.py:67-105 | Whatever was there before, a save that stops anywhere adds its own state to what may be reloaded and nothing else; one that ends leaves only that |
| Persistence.StateFile.constructor | ats-pi-companion-main/src/atspi/persistence.py:40-41 | Opens the given disk |
| Persistence.StateFile.Load | ats-pi-companion-main/src/atspi/persistence.py:43-65 | Zeroes where there is no file, where it cannot be read and where it does not parse; the saved state otherwise |
| Persistence.StateFile.Save | ats-pi-companion-main/src/atspi/persistence.py:67-105 | Performs the first so many of the four steps |
| TransferCounter.ServedCountIsDurable | ats-pi-companion-main/src/atspi/state.py:239-299 | Over all snapshots, kills, restarts, power losses and boots, inside saves too, the count served is the number of transfers counted and the time served with it is that of the last one; a power loss at that moment brings back exactly both, and a restart loads them |
| TransferCounter.ServedCountIsMonotone | ats-pi-companion-main/src/atspi/state.py:239-299 | Of any two moments of such a run, starts apart or not, the later serves at least as much, and below 2^32 the two registers carry it in full |
| TransferCounter.WindowIsRecount | ats-pi-companion-main/src/atspi/state.py:258-280 | Over such runs the published 24-hour count is how many of all transfers ever counted, over all starts, are not older than 86400 s |
| TransferCounter.CountIsTransfers | ats-pi-companion-main/src/atspi/state.py:230-256 | In every run, whatever fails: the count served is the loaded one plus the number of snapshots that found the switch at the generator, the one before having found it at utility or in the stroke; the two times served are those of the latest such snapshot and of the latest return to utility |
| TransferCounter.StrokeCountsOne | ats-pi-companion-main/src/atspi/state.py:230-297 | A transfer through any number of samples in the stroke counts exactly one, stamped with its time, and the state served is the only one that can come back |
| TransferCounter.ReturnIsStamped | ats-pi-companion-main/src/atspi/state.py:230-299 | A return through any number of samples in the stroke counts nothing, is stamped with its time, and queues a save of the state served |
| TransferCounter.StrokeWaits | ats-pi-companion-main/src/atspi/state.py:230-251 | In the stroke nothing is counted, stamped or saved |
| TransferCounter.GoodStep | ats-pi-companion-main/src/atspi/state.py:197-299 | Each event keeps the durability invariant |
| TransferCounter.WindowStep | ats-pi-companion-main/src/atspi/state.py:258-280 | A snapshot keeps the window equal to the recount |
| TransferCounter.BootStep | ats-pi-companion-main/src/atspi/state.py:180-193 | A boot from whatever survived a power loss restores it, the transfer whose save was cut counted exactly if its save survived |
| TransferCounter.RestartStep | ats-pi-companion-main/src/atspi/persistence.py:43-65 | So does a restart, which loads what the dead process left and flushes nothing: the loaded state, and all that a later power loss could bring back, describe the same transfers, unless the process died between rename and directory flush |
| TransferCounter.CutStep | ats-pi-companion-main/src/atspi/state.py:291-297 | A process that dies at any point of a save, with the power or without, keeps it |
| TransferCounter.CutSave | ats-pi-companion-main/src/atspi/persistence.py:67-105 | Before the rename only the old state can come back, after the directory flush only the new, in between either |
| TransferCounter.BackgroundStep | ats-pi-companion-main/src/atspi/state.py:545-568 | A background save keeps it, in whatever order they land and wherever it fails or the process dies in it |
| TransferCounter.EvictIsSince | ats-pi-companion-main/src/atspi/state.py:540-543 | On times in order, dropping from the front keeps exactly the recent ones |
| TransferCounter.OvertakenExactlyWhen | ats-pi-companion-main/src/atspi/state.py:297-299 | Whichever background save lands after a transfer's own, a power loss brings back the count served, if and only if none was on its way when the transfer was saved |
| TransferCounter.BackgroundSaveLands | ats-pi-companion-main/src/atspi/state.py:545-568 | A background save that lands last is what is on disk |
| TransferCounter.FailedSaveExactlyWhen | ats-pi-companion-main/src/atspi/state.py:570-592 | A transfer whose save fails is served all the same; a power loss brings its count back if and only if the save ran to its end |
| TransferCounter.KilledSaveExactlyWhen | ats-pi-companion-main/src/atspi/persistence.py:67-105 | After a process died in the save of a transfer, what a load finds is what a later power loss would bring back, if and only if it did not die between the rename and the directory flush |
| TransferCounter.KilledSaveRunsBackwards | ats-pi-companion-main/src/atspi/persistence.py:92-105 | The failing run: killed there, restarted, the transfer served; then power lost, and the next process serves one less |
| RateLimit.RefusedExactlyWhenOverfull | GenWatch-main/backend/genwatch/services/ratelimit.py:34-47 | A check is refused if and only if the capacity is below one token or admitting it would put more than capacity + refill * (t - s) admissions into a window from an earlier check; the first is always admitted |
| RateLimit.LevelIsLeastAllowance | GenWatch-main/backend/genwatch/services/ratelimit.py:41-46 | The bucket's level is the least allowance over all windows of the history, capped by the capacity |
| RateLimit.NoWindowOverfull | GenWatch-main/backend/genwatch/services/ratelimit.py:34-47 | Hence no window from any check to any later one ever exceeds its bound |
| RateLimit.KeysAreIndependent | GenWatch-main/backend/genwatch/services/ratelimit.py:34-51 | However many keys interleave, a key's bucket is what its own checks since its own last reset make |
| RateLimit.RetryAdviceWorksExactlyWhen | GenWatch-main/backend/genwatch/services/ratelimit.py:53-60 | At any rates, a check after the advised time succeeds if and only if the capacity is a whole token and the missing part refills within a second or, at a refill of at least 1e-9, in whole seconds |
| RateLimit.RateLimiter.constructor | GenWatch-main/backend/genwatch/services/ratelimit.py:28-32 | Starts without buckets |
| RateLimit.RateLimiter.CheckKey | GenWatch-main/backend/genwatch/services/ratelimit.py:34-47 | The answer and the bucket of the key; all others unchanged |
| RateLimit.RateLimiter.Reset | GenWatch-main/backend/genwatch/services/ratelimit.py:49-51 | Removes one bucket and no other |
| RateLimit.RateLimiter.RetryAfter | GenWatch-main/backend/genwatch/services/ratelimit.py:53-60 | The advice as specified |
| Registers.BatchReads | GenWatch-main/backend/genwatch/modbus/registers.py:568-594 | For non-overlapping registers: reads in order, disjoint, at most `max` words, each register wholly in exactly one, neighbours in a read at most 4 words apart, and no division under these limits uses fewer reads |
| Registers.BatchSorted | GenWatch-main/backend/genwatch/modbus/registers.py:579-594 | One pass over the sorted registers finds groups that no division is ahead of at any cut |
| Registers.ReadsAreOptimal | GenWatch-main/backend/genwatch/modbus/registers.py:568-594 | Groups that stayed ahead all the way make an optimal list of reads |
| Registers.AheadIsFewest | GenWatch-main/backend/genwatch/modbus/registers.py:584-593 | They are the fewest |
| Registers.CloseStaysAhead | GenWatch-main/backend/genwatch/modbus/registers.py:587-592 | Closing a group only when the next register cannot join keeps the lead |
| Registers.ReadsPlaceRegister | GenWatch-main/backend/genwatch/modbus/registers.py:584-593 | A register lies in the read of its own group and touches no other |
| Registers.ReadsInOrder | GenWatch-main/backend/genwatch/modbus/registers.py:584-593 | The reads are nonempty, within the limit, disjoint and in order |
| Registers.SortIsSort | GenWatch-main/backend/genwatch/modbus/registers.py:578 | Sorting sorts and only reorders |
| Registers.RawRoundTrip | GenWatch-main/backend/genwatch/modbus/registers.py:522-565 | Decoding inverts the wire encoding on every number in range of every kind, always lands in range, and fails exactly on too few words |
| Registers.DecodeRoundTrip | GenWatch-main/backend/genwatch/modbus/registers.py:522-565 | Decoding a number off the wire gives that number times the scale, at every scale, and the number itself for bit fields and enumerations |
| Registers.DecodesTheNumber | GenWatch-main/backend/genwatch/modbus/registers.py:522-565 | Of any words at all decoding finds the one number in range that they carry, as its engineering value |
| Registers.ValidateRegisters | GenWatch-main/backend/genwatch/modbus/registers.py:295-313 | A map passes if and only if its names are distinct and no register shares a word with an earlier one that has a name |
| Registers.NamedMapsPassExactly | GenWatch-main/backend/genwatch/modbus/registers.py:295-313 | With all names given that is distinct names and no shared word |
| Registers.UnnamedOverlapPasses | GenWatch-main/backend/genwatch/modbus/registers.py:311 | Without, an overlap passes: two registers on one word, the first without a name |
| Registers.ClaimWords | GenWatch-main/backend/genwatch/modbus/registers.py:309-313 | Complains exactly if another name holds one of the words, and hands all of them over |
| Registers.ClaimStep | GenWatch-main/backend/genwatch/modbus/registers.py:309-313 | A new name finds its words unclaimed exactly if it is disjoint from all before it that have names |
| Poller.CachedValuesAreGenuine | GenWatch-main/backend/genwatch/modbus/poller.py:292-404 | After any polls with any failures, every cached value is the number, scaled as the map says, that words really returned for that register in the poll it is stamped with carry, never a placeholder zero |
| Poller.CachedValuesAreFresh | GenWatch-main/backend/genwatch/modbus/poller.py:383-402 | After a poll of a tier each of its cached values is younger than 3 cadences; what was returned is in, and what is young enough has not been lost |
| Poller.HeartbeatMeansDecoded | GenWatch-main/backend/genwatch/modbus/poller.py:417-424 | The heartbeat beats exactly if every state register was decoded in this very poll |
| Poller.HeartbeatWithoutState | GenWatch-main/backend/genwatch/modbus/poller.py:417-424 | Without state registers it beats exactly if anything at all could be read |
| Poller.FullReadsDecodeAll | GenWatch-main/backend/genwatch/modbus/poller.py:309-371 | When all the reads that batching made come back whole, every register they were made for gets a fresh value |
| Poller.FullPollRefreshesAll | GenWatch-main/backend/genwatch/modbus/poller.py:292-404 | Such a poll leaves every register of the tier with a value of this very poll |
| Poller.FreshIsReturned | GenWatch-main/backend/genwatch/modbus/poller.py:348-371 | A freshly decoded value decodes words that the client returned in this poll |
| Poller.FreshIsCarried | GenWatch-main/backend/genwatch/modbus/poller.py:348-371 | And is the number that they carry, scaled as the map says |
| Poller.FreshExactlyWhenReturned | GenWatch-main/backend/genwatch/modbus/poller.py:309-371 | A failure stays where it is: of the reads that batching makes, a register gets a fresh value if and only if all its own words came back, with its batch or one by one |
| Poller.GenuineBlock | GenWatch-main/backend/genwatch/modbus/poller.py:349-366 | An untainted block holds, for a register, only words that were returned |
| Poller.ProvenanceStep | GenWatch-main/backend/genwatch/modbus/poller.py:341-404 | One poll keeps the provenance of all entries, those of the other tier included |
| Poller.Poller.constructor | GenWatch-main/backend/genwatch/modbus/poller.py:132-162 | Starts with an empty cache |
| Poller.Poller.Plan | GenWatch-main/backend/genwatch/modbus/poller.py:132-162 | The reads of a tier are optimal, of at most 64 words each |
| Poller.Poller.FallbackSingles | GenWatch-main/backend/genwatch/modbus/poller.py:431-462 | The words of the fan-out with the offsets that failed, or nothing if all failed |
| Poller.Poller.ReadBatches | GenWatch-main/backend/genwatch/modbus/poller.py:307-339 | The blocks in order, and exactly one health sample per batch, good if any word was read |
| Poller.Poller.DecodeFrom | GenWatch-main/backend/genwatch/modbus/poller.py:348-371 | The value from the first covering block, none where a word is a placeholder |
| Poller.Poller.DecodeTier | GenWatch-main/backend/genwatch/modbus/poller.py:345-371 | Refreshes the registers of the tier and no other entry |
| Poller.Poller.EvictTier | GenWatch-main/backend/genwatch/modbus/poller.py:383-402 | Drops exactly the entries of the tier that are too old |
| Poller.Poller.PollTier | GenWatch-main/backend/genwatch/modbus/poller.py:292-424 | The exact effect of a poll on every entry, and when the heartbeat moves |
| LinkHealth.Track | GenWatch-main/backend/genwatch/modbus/poller.py:465-522 | At every moment the bounded object gives the verdict of the unbounded history |
| LinkHealth.CommsHealth.constructor | GenWatch-main/backend/genwatch/modbus/poller.py:55-60 | A new link is healthy at 100 % |
| LinkHealth.CommsHealth.Count | GenWatch-main/backend/genwatch/modbus/poller.py:469-484 | The window, the two streaks and the percentage after one sample |
| LinkHealth.Rounded | GenWatch-main/backend/genwatch/modbus/poller.py:483-484 | The percentage to the nearest tenth |
| LinkHealth.CommsHealth.Classify | GenWatch-main/backend/genwatch/modbus/poller.py:503-522 | The verdict of the exact test over the whole history, from the bounded windows and the rounded percentage |
| LinkHealth.CommsHealth.Record | GenWatch-main/backend/genwatch/modbus/poller.py:465-501 | One sample keeps the object in step with the unbounded history |
| LinkHealth.CommsHealth.Transition | GenWatch-main/backend/genwatch/modbus/poller.py:496-501 | Only a change to lost is remembered as an outage |
| LinkHealth.CommsHealth.CheckSilence | GenWatch-main/backend/genwatch/modbus/poller.py:267-289 | Silence for longer than three poll periods is an outage, once |
| LinkHealth.RoundedTestIsExact | GenWatch-main/backend/genwatch/modbus/poller.py:484-520 | For windows of at most 60, the rounded percentage is below 95 exactly if fewer than 19 in 20 succeeded, whichever way ties round |
| LinkHealth.WindowSeesFlapping | GenWatch-main/backend/genwatch/modbus/poller.py:516-519 | Thirty-two remembered outages tell flapping as well as all of them |
| LinkHealth.OutagesUpTo | GenWatch-main/backend/genwatch/modbus/poller.py:496-501 | Outages are recorded in order of time |
| LinkHealth.VerdictExactlyWhen | GenWatch-main/backend/genwatch/modbus/poller.py:465-522 | The verdict after a sample from the events alone: lost exactly if since the last good sample there was a silence or three events; healthy exactly if the sample was good and 19 in 20 of the last 60 were, or the last five events were good samples with fewer than two outages in the last 120 s |
| LinkHealth.HistoryTells | GenWatch-main/backend/genwatch/modbus/poller.py:465-501 | The counters of a history are the lengths of its runs of events |
| LinkHealth.OutagesAreTurns | GenWatch-main/backend/genwatch/modbus/poller.py:496-501 | Its recent outages are the events, at most 120 s old, at which touch was lost |
| LinkHealth.SuccessesAreMultiplicity | GenWatch-main/backend/genwatch/modbus/poller.py:483 | The successes counted are the good samples in the window |
| LinkHealth.FlappingLinkMustEarnHealthy | GenWatch-main/backend/genwatch/modbus/poller.py:511-522 | With two outages in the last 120 s a sample leaves the link healthy only if it was good and at least 19 in 20 of the last 60 were |
| LinkHealth.OneSuccessAfterSilence | GenWatch-main/backend/genwatch/modbus/poller.py:280-289 | After a declared outage one good sample makes the link healthy exactly if 19 in 20 of the window succeeded, contrary to the comment there |
| LinkHealth.QuietLinkRecoversAtOnce | GenWatch-main/backend/genwatch/modbus/poller.py:280-289 | For example after up to 59 good samples |
| Fuel.Monitor | GenWatch-main/backend/genwatch/services/fuel.py:167-301 | Over any polls, valid or not, each poll's messages are exactly the ones its whole history calls for |
| Fuel.FuelMonitor.constructor | GenWatch-main/backend/genwatch/services/fuel.py:97-106 | Starts unknown, with nothing notified |
| Fuel.FuelMonitor.Update | GenWatch-main/backend/genwatch/services/fuel.py:167-245 | A plausible reading brings the messages the history calls for; any other changes nothing and says nothing |
| Fuel.RunMonitor | GenWatch-main/backend/genwatch/services/fuel.py:167-301 | The same as one predicate over the whole log |
| Fuel.FuelMonitor.TakePoll | GenWatch-main/backend/genwatch/services/fuel.py:167-191 | One poll of a whole service, counted or not |
| Fuel.FuelMonitor.CrossLevel | GenWatch-main/backend/genwatch/services/fuel.py:193-241 | Crossing or reminder, as the history of messages decides |
| Fuel.FuelMonitor.CheckDrop | GenWatch-main/backend/genwatch/services/fuel.py:247-301 | Alerts exactly when the history calls for it, with the drop from the highest reading still looked back at |
| Fuel.FuelMonitor.Slide | GenWatch-main/backend/genwatch/services/fuel.py:263-279 | The window holds exactly the readings among the last 2048, within the window, with no burning since |
| Fuel.Peak | GenWatch-main/backend/genwatch/services/fuel.py:283 | The highest level in the window |
| Fuel.PeakDecides | GenWatch-main/backend/genwatch/services/fuel.py:283-286 | The peak decides whether some reading still looked back at is a threshold higher |
| Fuel.AlertsNeedRecovery | GenWatch-main/backend/genwatch/services/fuel.py:139-164 | Between two LOW alerts a reading cleared warn + hysteresis, between two CRITICAL alerts one cleared critical + hysteresis |
| Fuel.LowHolds | GenWatch-main/backend/genwatch/services/fuel.py:151-158 | Without such a reading low stays low and critical stays critical |
| Fuel.StatusIsLatch | GenWatch-main/backend/genwatch/services/fuel.py:139-164 | With positive hysteresis, critical (and low, with thresholds in order) is the latch over the readings alone: some reading at or below the threshold and none since that cleared the margin |
| Fuel.MessagesExactlyWhen | GenWatch-main/backend/genwatch/services/fuel.py:193-227 | With a positive margin each reading says critical, low, rising or replenished exactly when it turns one of the two latches |
| Fuel.WarnLatchExactlyWhen | GenWatch-main/backend/genwatch/services/fuel.py:139-164 | Low is that latch between the warning threshold and its margin, for every history, if and only if the hysteresis is positive and the critical threshold is not above the warning one |
| Fuel.LatchExactlyWhen | GenWatch-main/backend/genwatch/services/fuel.py:149-154 | Critical is that latch for every history if and only if the hysteresis is positive |
| Fuel.NoMarginChatters | GenWatch-main/backend/genwatch/services/fuel.py:149-162 | Without it a level resting on the critical threshold is critical at every other reading |
| Fuel.NoMarginChattersAtWarn | GenWatch-main/backend/genwatch/services/fuel.py:149-162 | And one resting on the warning threshold is low at every other reading |
| Fuel.LowIsRecentlyTold | GenWatch-main/backend/genwatch/services/fuel.py:228-232 | After each reading low implies a message younger than the reminder period |
| Fuel.LastNoteIsLast | GenWatch-main/backend/genwatch/services/fuel.py:198-232 | The remembered message is the last one |
| Fuel.RemindersAreApart | GenWatch-main/backend/genwatch/services/fuel.py:231 | A reminder never follows any level message sooner than the period |
| Fuel.AlertsExactlyWhen | GenWatch-main/backend/genwatch/services/fuel.py:247-301 | An alert if and only if a reading among the last 2048, within the window of at least one minute and with no burning since where that matters, was a threshold higher, and no alert less than a window ago mutes it; the drop reported is the largest in view |
| Fuel.AlertMutesExactly | GenWatch-main/backend/genwatch/services/fuel.py:287-291 | After an alert, the next reading that calls for one raises it if and only if it comes a window later or the alert was stamped 0.0 |
| Fuel.AlertsAreApart | GenWatch-main/backend/genwatch/services/fuel.py:287-291 | Two alerts are at least a window apart wherever none from the first up to the second is stamped 0.0 |
| Fuel.LastAlertIsLast | GenWatch-main/backend/genwatch/services/fuel.py:291 | The remembered alert is the last one raised |
| Fuel.AlertAtZeroRepeats | GenWatch-main/backend/genwatch/services/fuel.py:289 | An alert stamped 0.0 does not count: three readings that alert twice within a second |
| Control.UsesMapToIssues | GenWatch-main/backend/genwatch/services/control.py:142-206 | Over any interleaving of both services, every write and acknowledgement goes back to an issue by the same operator, at most 30 s before, unbound or bound to that action, not spent in between |
| Control.UsesMapToDistinctIssues | GenWatch-main/backend/genwatch/services/control.py:182-206 | No two uses go back to the same issue: a token is good for one write, to either device |
| Control.WritesWereGated | GenWatch-main/backend/genwatch/services/control.py:61-66 | Every generator write was its verb's own command, by an operator, over healthy comms, with gate registers at most two periods old, the panel in AUTO, and the engine stopped for a start or exercise, not stopped for a stop, running for a transfer; every switch write its action's own command past the role, link, authority, fault and utility gates |
| Control.RunKeeps | GenWatch-main/backend/genwatch/services/control.py:142-347 | The invariants behind these hold over every run |
| Control.TokenIsShownOnce | GenWatch-main/backend/genwatch/services/control.py:182-206 | Once shown past the gates, accepted or not, a token is never used again in any continuation that does not issue the same text anew |
| Control.TokenStays | GenWatch-main/backend/genwatch/services/control.py:142-206 | Until then, and while its 30 s last, it stays as it was issued, whatever else both services do |
| Control.IssuedTokenCommands | GenWatch-main/backend/genwatch/services/control.py:216-347 | After any such run its operator's command is refused only by the gates, and otherwise adds exactly that verb's command to the generator writes |
| Control.IssuedTokenReleases | GenWatch-main/backend/genwatch/services/ats_control.py:127-262 | With such a token releasing a maintained command succeeds exactly with the role, a link and a release register, whatever the switch reports, and adds exactly the releasing command to the switch writes |
| Control.CommandWritesExactlyWhen | GenWatch-main/backend/genwatch/services/control.py:216-347 | A command is written exactly with every gate open and a good token; a closed gate leaves the tokens alone, past the gates the token is gone either way |
| Control.IssuedTokenErrors | GenWatch-main/backend/genwatch/services/control.py:182-206 | A live token answers another operator and another action as such, and after 30 s it has expired or is gone |
| Control.RefusalIsTrue | GenWatch-main/backend/genwatch/services/control.py:216-330 | A refusal names a gate that is closed; none means that all are open |
| Control.SwitchRefusalIsTrue | GenWatch-main/backend/genwatch/services/ats_control.py:127-225 | The same at the switch |
| Control.ControlService.constructor | GenWatch-main/backend/genwatch/services/control.py:85-99 | Starts without tokens |
| Control.ControlService.EvictExpired | GenWatch-main/backend/genwatch/services/control.py:208-214 | Drops exactly the expired tokens |
| Control.ControlService.IssueToken | GenWatch-main/backend/genwatch/services/control.py:142-164 | A text not in use becomes a token of 30 s for that operator and action |
| Control.ControlService.ConsumeToken | GenWatch-main/backend/genwatch/services/control.py:182-206 | Spends it: gone whether or not it is accepted, and the error of the first objection |
| Control.ControlService.StaleRegisters | GenWatch-main/backend/genwatch/services/control.py:106-129 | Exactly the gate registers older than two cadences or never decoded |
| Control.ControlService.Run | GenWatch-main/backend/genwatch/services/control.py:216-360 | Gates in order, then the token, then exactly one write of the verb's command |
| Control.SwitchControlService.constructor | GenWatch-main/backend/genwatch/services/ats_control.py:107-125 | Spends from the given service's tokens |
| Control.SwitchControlService.Run | GenWatch-main/backend/genwatch/services/ats_control.py:127-262 | Gates in order, then the shared token, then exactly one write of the asserting or releasing command |
| Control.UnspentSince | GenWatch-main/backend/genwatch/services/control.py:185 | A token with a live issue has not been spent since it |
| Mqtt.LengthRoundTrip | GenWatch-main/backend/genwatch/services/mqtt.py:63-74 | A length decodes to itself, in one to four bytes, if and only if it is below 128^4; any other is malformed to every reader |
| Mqtt.FrameRoundTrip | GenWatch-main/backend/genwatch/services/mqtt.py:96-107 | A packet on the wire parses as itself, leaving what follows, exactly if its length fits |
| Mqtt.ReadPackets | GenWatch-main/backend/genwatch/services/mqtt.py:110-137 | Packets in a row are read back the same and in order, however the socket cuts the stream |
| Mqtt.ReadNext | GenWatch-main/backend/genwatch/services/mqtt.py:123-137 | The next packet of a stream, and nothing after it |
| Mqtt.ReadPacket | GenWatch-main/backend/genwatch/services/mqtt.py:123-137 | Reads exactly the packet that the stream starts with, or fails as the format says, for any chunking |
| Mqtt.RecvExact | GenWatch-main/backend/genwatch/services/mqtt.py:110-120 | Exactly n bytes in order for any chunking, or an error with the stream exhausted |
| Mqtt.EncodeRemainingLength | GenWatch-main/backend/genwatch/services/mqtt.py:63-74 | The loop computes the field, least significant seven bits first |
| Mqtt.ReachedStep | GenWatch-main/backend/genwatch/services/mqtt.py:128-135 | One more length byte: digit, end, or malformed after the fourth |
| Mqtt.ParsePieces | GenWatch-main/backend/genwatch/services/mqtt.py:125-137 | What a packet read piece by piece parses as, errors included |
| Mqtt.PublishRoundTrip | GenWatch-main/backend/genwatch/services/mqtt.py:99-107 | A receiver following section 3.3 gets the message back if and only if the quality exists and the packet fits; building fails exactly on topics or numbers beyond two bytes |
| Mqtt.ConnectRoundTrip | GenWatch-main/backend/genwatch/services/mqtt.py:83-96 | A receiver following section 3.1 gets client, keep-alive, user and password back; without a user name no password is sent |
| Mqtt.BuildConnect | GenWatch-main/backend/genwatch/services/mqtt.py:83-96 | Fails exactly if a field does not fit two bytes; else the framed CONNECT packet |
| Mqtt.Greet | GenWatch-main/backend/genwatch/services/mqtt.py:177-186 | Succeeds exactly if the broker's stream starts with an accepting CONNACK; else says how it failed |
| Mqtt.AnswersAreRead | GenWatch-main/backend/genwatch/services/mqtt.py:180-186 | An accepting answer is a packet of type 2 with its return code second, an acknowledgement one of type 4 that begins with the number |
| Mqtt.BrokerAnswers | GenWatch-main/backend/genwatch/services/mqtt.py:177-200 | A broker that answers byte by byte as sections 3.2 and 3.4 say is accepted exactly with return code 0 and has acknowledged exactly with number 1 |
| Mqtt.PublishOnce | GenWatch-main/backend/genwatch/services/mqtt.py:177-205 | The message is sent exactly when the broker accepted, and reported delivered exactly when at quality 1 it was acknowledged; just what was sent, in order |
| Mqtt.Socket.constructor | GenWatch-main/backend/genwatch/services/mqtt.py:167-175 | A stream still to come, cut by any schedule |
| Mqtt.Socket.Recv | GenWatch-main/backend/genwatch/services/mqtt.py:115-117 | Some next bytes, at most as many as asked, none only at the end |
| Mqtt.Socket.SendAll | GenWatch-main/backend/genwatch/services/mqtt.py:178 | Appends to what was sent |

## Left out

- Modbus, serial and TCP libraries, TLS, systemd, the health server, HTTP and WebSocket routes, the command line, the frontend: libraries, I/O or presentation. A read or write is a success with words or a failure.
- Logging, message texts, Slack, reports, configuration files, SQL, passwords and sessions: no state that these properties depend on. Of the audit log only issues and successful uses are kept, as a ghost sequence.
- Preemptive threads: the store's locks and the limiter's lock are taken as making each call atomic.
- `Protocol` treats a request's check and its write as one step, a sampling cycle's two reads and its comparison as one, and the values in a cycle as what the relays are then; the read of the host-watchdog registers is an event that says whether they are in order.
- BoundedRelease.SilentCommanderIsReleased: the bound is 30 s plus one gap between landed rounds, stated with the gap as a parameter; the one-second sleep and the time that writes take are inside it.
- FailSafeGate.OnlyGatedCommandsAssert: does not promise that the fail-safe is verified when the relay comes on, because the code does not keep that; `UnverifiedAssertionExactlyWhen` says when it is.
- PulseProtocol.ReleaseComesOnTime: assumes that the event loop wakes sleepers on time for equality; without that only "not before" is stated.
- Adam.IOAdamDriver.Release: the times of the attempts and their outcomes are given, since a task that sleeps between them cannot be one method call; that they are spaced by the retry time is required.
- Store: position and mode strings outside the four known ones, which the code serves as 3, are the fourth value of the enumeration.
- Persistence: file systems without directory flush are saves of three steps; a file whose fields have wrong types counts as one that does not parse, and defaults for single missing fields are not modelled.
- Poller: the 95th-percentile latency, the callback, and hot reload of the register map, which is fixed.
- LinkHealth: one clock stands for both the wall clock and the monotonic clock.
- Contract.SampleArrives: a poll is taken to be answered from one state of the companion; `FanOutTearsExactlyWhen` says what reading the two words of a count at different moments brings. The rest of GenWatch's ATS service (events, authority, skew) is an input of the control gates.
- Registers.ValidateRegisters: only the checks on names and words; ranges of addresses, function codes and references of rules are plain comparisons. Registers.BatchReads needs registers that do not overlap, as validation ensures, and none wider than a read.
- Fuel: gallons and texts; the configuration is constant over a run; the size of a drop is not rounded.
- Control: whether a generator or switch write lands is an input; the maps are fixed; a switch command's token check and its write are one step, so the 30 s are counted to the check. Command feedback (`note_command_write`) is not part of this model.
- Mqtt: text is given as UTF-8 bytes; socket timeouts, TLS, the queue, retries and deduplication of the publisher.
- The mock and hybrid drivers, the ASCO reader, the bench tool, exercise-schedule inference, alarm and panel derivations, and events of the ATS service: they would only add easy members.
