# Overwitch, verified in Dafny

Overwitch carries audio between an Overbridge device, which has its own USB clock, and JACK. An engine
thread talks to the device; JACK's thread resamples. The two share one status word, one pair of points of
a delay-locked loop (DLL), and two ring buffers. This project models that core, the codec of the USB
transfers, the recorder and JACK's copy loops, and proves what they are for:

* the DLL locks: its errors decay geometrically on an exact clock and stay bounded on a jittery one
  (`Ideal`, `DllLoop`), and the code, with a clock of 28 bits and counters of 32, computes the same as the
  loop on unbounded ones (`Dll`, `DllRefinement`, `DllWrappedClock`). `HostLoop` says what the host's filter does
  to the errors it hears and what its gains mean;
* the engine's thread and JACK's thread are one state machine (`Machine`) whose steps are the locked
  sections and ring operations of the source, so that every interleaving is a run. Over all runs the two
  statuses stay coupled (`Protocol`), a stop is final and drains (`Stopping`), the rings lose, tear and
  reorder nothing (`Ring`, `Transport`), the device hears silence until the engine reads (`Silence`), every
  entry to the running status is earned (`Earned`), and the ratios and requests stay in their ranges
  (`Requests`, `Rates`). What happens is also exactly what must: the history of the cycles determines the
  host's status and every decision (`Verdicts`), each phase has its gains (`Phases`), each USB callback and each
  call of JACK does what follows from what it saw at its own steps, however they were interleaved (`Callbacks`,
  `Calls`), and the engine always comes back to handle events (`Serving`). `Connected` shows that what a run of
  the machine does to the DLL is a run of `DllRefinement`, so the machine's errors and ratios are the ideal ones;
  `Reached` walks from every initial world to the running status, and to the failures below, and `AudioReached`
  on to runs in which audio flows both ways;
* a transfer that is written and read back returns every sample at its place (`Samples`, `Blocks`, `Codec`);
* the recorder hands over exactly the selected tracks (`Recorder`), and `RecorderRuns` says which chunks its
  second thread writes, and when that thread ends;
* JACK's two copy loops are inverse to each other and write each cell once (`Interleave`).

`Words`, `Reals` and `Spans` hold the arithmetic.

## How it is modelled

The DLL, the status word, the accumulator of frames, the transfer buffers, the recorder's buffer and the copy
loops are classes and methods over fields and arrays, as in the source, each proved equal to a function on
values; the lemmas are about those functions. The two threads of `Machine` and of `RecorderRuns` are step
functions on values, because a run must be able to interleave them: a step is one locked section or one
operation on a ring, with the thread-local work beside it, and a value sampled in one step (a status, the
space of a ring) is acted upon in a later one. Calls of the host do not overlap: JACK serialises its
callbacks.

A ring keeps as history what its producer was told it took in and what its consumer took out. Writing more
than there is room for, or discarding more than there is, is possible in the model and would break
conservation, so the theorems say that it does not happen. Time stamps are microseconds. Doubles are reals.
What libusb, JACK and libsamplerate decide is part of the events: which transfer completes and how, whether
a submission succeeds, when cycles come and how long they are, the samples that the resampler produces.

Where the code does not do what one would expect, the model follows the code:

* `abs` in `ow_dll_tuned` (`src/dll.c:219`) is the integer function, so both thresholds, 0.001 and 0.00001,
  mean an error below one frame (`Dll.TunedMeansBelowOneFrame`).
* A stop that arrives while the engine's thread waits for the host (`src/engine.c:770-772`) is never
  noticed: the thread spins for ever. Every initial world can come to that (`Reached.StopCanBeMissed`), and
  `Stopping.StopIsNoticed` says that it is the only case.
* The engine drops h2o data in units of the USB frame (`src/engine.c:222`, `849`), the rings hold floats. All
  runs leave whole frames in the ring exactly when no input track has 3 bytes (`Reached.RingHoldsWholeFrames`,
  `Reached.RingsHoldWholeFrames`);
  bytes are conserved all the same (`Transport.FramesAreConserved`).
* The counter of a reset (`src/dll.c:192`) negates an unsigned number: at 48 kHz it is 2^32 less the frames of a
  transfer, which the code goes on to read as a small negative one, and so does the ideal loop. At other rates it is
  as far off as the ratio makes it. Booting absorbs it at every rate from 48 kHz on that is not near 96 kHz
  (`DllRefinement.CounterIsAbsorbed`); near 96 kHz it is about 2^31, and the first error need not fit an int: with
  transfers of 168 frames and cycles of 256 it is -2147484116 after one transfer, and booting leaves 468 frames of it
  (`DllRefinement.BootCanMissTheError`, with the exact condition in `DllRefinement.BootFits`).
* A host that measures again right after booting finds another error if the interpolation reaches beyond 31
  bits (`DllRefinement.BootIsStable`, `DllRefinement.BootCanBeUnstable`).
* The buffer for eight times the frames of a cycle (`src/resampler.c:190-194`) is enough for the ratio's clamp
  exactly from a JACK rate of 12 kHz on (`Requests.RequestsFitBuffer`).
* The recorder counts every selecting character of its mask, also those beyond the device's tracks
  (`src/main-record.c:249-265`). With such a mask a hand-over can tear: it copies whole frames of the counted
  tracks only, and the rest of the chunk is what the disk buffer held before. The engine delivers whole
  transfers, so every hand-over, but for a first one of nothing, has the same number of them, which follows
  from the options. Nothing is lost
  exactly when the samples that so many transfers leave are whole frames
  (`RecorderRuns.NothingIsLostBetweenBuffers`). Whatever the size of the buffer that is so when one transfer is
  (`RecorderRuns.HandOversAreWhole`), as with every mask that fits, but also with fourteen tracks selected out
  of twelve (`RecorderRuns.OverlongMaskCanBeWhole`).
* The recorder's dumper overwrites a request to end that arrives between its look at the status and its write
  (`src/main-record.c:108-125`, `325-328`), and polls for ever (`RecorderRuns.JoinReturns`,
  `RecorderRuns.StopCanBeLost`). A chunk that is still waiting when the next one is handed over is lost
  (`RecorderRuns.LostChunks`), and what is pending at the end is not written.

## Model

| member | source | states |
|---|---|---|
| Dll.OverbridgeSide.Init | src/dll.c:49-63 | the gains are those of a loop of 0.1 Hz: w1 = 1.6 w, w2 = w squared, with the nominal period as first guess |
| Dll.OverbridgeSide.Update | src/dll.c:67-100 | one arrival: boot, detect a wrap of the clock, move both points, both counters and the period, and nothing else |
| Dll.HostSide.constructor | src/dll.c:169-175 | both sides have to boot |
| Dll.HostSide.Init | src/dll.c:169-175 | both sides have to boot again, nothing else changes |
| Dll.HostSide.Reset | src/dll.c:178-195 | the filter restarts at the nominal ratio, clamped within a factor of two, with the target delay and the counter that C computes |
| Dll.CounterIsDefined | src/dll.c:192 | from a ratio of 1 on the counter is defined: 2^32 less the frames of a transfer, divided by the ratio and truncated |
| Dll.HostSide.LoadFromOverbridge | src/dll.c:210-214 | the host gets both points of the device's line |
| Dll.HostSide.UpdateError | src/dll.c:109-131 | the error is backlog plus interpolation minus target; the first one is rounded into the counter |
| Dll.HostSide.Update | src/dll.c:140-166 | the third-order filter and its clamp, which is reported; `HostLoop.StagesAreSums` says what it computes |
| Dll.TunedMeansBelowOneFrame | src/dll.c:217-220 | tuned, for either threshold, is exactly an error strictly between -1 and 1 |
| Dll.RatioStaysInRange | src/dll.c:149-161 | the ratio stays in its range, and a clamp is reported exactly when the filter's value was outside |
| DllLoop.EnergyDecays | src/dll.c:88-97 | on an exact clock the quadratic energy of the two errors is multiplied by exactly 1 - w1 + w2 at each arrival |
| DllLoop.EnergyBounds | src/dll.c:59-62 | the energy is at least 0.36 times the square of the period's error, of w times the time error, and of the span's error |
| DllLoop.EnergyAfterPush | src/dll.c:88-97 | a push in time costs at most a share of the energy and a term in the square of the push |
| DllLoop.ConfiguredGains | src/dll.c:59-62 | for up to 32 blocks the gains lie within the range of the theorems |
| DllLoop.EnergyOnExactClock | src/dll.c:67-100 | after n arrivals from boot the energy is exactly the boot energy times the n-th power of the decay |
| DllLoop.PeriodConverges | src/dll.c:88-97 | the filtered period converges geometrically to the true one |
| DllLoop.LoopLocks | src/dll.c:88-97 | for every tolerance, from some arrival on the filtered period stays that close to the true one |
| DllLoop.SpanOnExactClock | src/dll.c:77-97 | the span between the two points is off the period by no more than the boot energy allows |
| DllLoop.SpanStaysPositive | src/dll.c:118-120 | booted on its nominal clock with w < 0.6, the host's divisor is at least dt (1 - w / 0.6) > 0 after every arrival |
| DllLoop.JitterStep | src/dll.c:88-97 | the set of bounded energy is kept by an arrival whose jitter is bounded |
| DllLoop.JitterRun | src/dll.c:88-97 | and by every arrival of every jittery run |
| DllLoop.JitterAttracts | src/dll.c:88-97 | a jittery run approaches that set geometrically from anywhere: what is left of the first energy, plus what the jitter sustains |
| DllLoop.JitterFromBoot | src/dll.c:77-97 | in particular from boot |
| DllLoop.SpanOnJitteryClock | src/dll.c:118-120 | after every arrival of a jittery run from boot the host's divisor is off the period by at most c, when the boot energy and what the jitter sustains are at most 0.36 c squared |
| DllLoop.PeriodOnJitteryClock | src/dll.c:88-97 | and so is the filtered period, by what the arrivals have left of the boot energy and what the jitter sustains |
| DllRefinement.ArrivalErrorExact | src/dll.c:88-93 | exactly which true errors the code reads right through 28 bits, within a window and across a wrap |
| DllRefinement.ArrivalRefines | src/dll.c:67-100 | an arrival on the wrapped clock does what it does on the unwrapped one, over any number of wraps |
| DllRefinement.OffsetsRefine | src/dll.c:34-45 | both time differences of the interpolation are the true ones |
| DllRefinement.CountersRefine | src/dll.c:117-121 | both counter differences are the true ones, across wraps of 32 bits |
| DllRefinement.CycleRefines | src/dll.c:109-131 | so the error is the true one, and booting corrects both counters alike |
| DllRefinement.RunRefines | src/dll.c:67-195 | the code refines the ideal loop over every run of arrivals, reads, cycles, filter changes and resets |
| DllRefinement.ErrorsAndRatiosAreIdeal | src/dll.c:109-166 | error, ratio and period equal those of the ideal loop, which starts from and resets to the signed counter, at every point of such a run; the counter is the ideal one modulo 2^32 |
| DllRefinement.CounterIsLedger | src/resampler.c:322 | once booted, the counter is what booting left plus all frames the reader returned, modulo 2^32 |
| DllRefinement.PointsStayApart | src/dll.c:83-100 | from the booting arrival on the two points are one transfer apart, for ever, over any resets and wraps |
| DllRefinement.BootAbsorbsOffset | src/dll.c:124-131 | whatever the counter held, booting leaves an error in [-1/2, 1/2) |
| DllRefinement.BootIsStable | src/dll.c:121-131 | measuring again from the corrected counter gives the same error exactly when the rounded remainder fits an int |
| DllRefinement.BootFits | src/dll.c:117-127 | for every counter and the first 2^30 frames, the error that is rounded fits an int exactly when the rounded interpolation does not carry it across 2^31 |
| DllRefinement.CounterIsAbsorbed | src/dll.c:192 | the code's own counter is absorbed at every ratio from 1 to 1.9 and from 2.1 on |
| DllRefinement.BootCanMissTheError | src/dll.c:124-131 | at 96 kHz there is a reset whose first error does not fit, and booting leaves 468 frames of it |
| DllRefinement.BootCanBeUnstable | src/dll.c:117-131 | a state, one transfer of 224 frames between its two points, for which it does not fit, and the second error differs |
| DllWrappedClock.TransfersAreTame | src/dll.c:28-45 | exact transfers keep the promises that the refinement needs, when the boot energy keeps them within 68 s of their predictions |
| DllWrappedClock.CodeConverges | src/dll.c:67-100 | the code itself, on its 28-bit clock, converges geometrically to the true period |
| DllWrappedClock.SteadyRunIsTame | src/dll.c:67-175 | runs of any events keep those promises too, resets included: after each of them transfers come at a device's period up to some jitter, cycles come after the first transfer and began within 34 s of the last, before or after it, and the reader keeps the backlog, and what booting corrects, within 31 bits |
| DllWrappedClock.SteadyRunIsIdeal | src/dll.c:67-166 | so in every such run error, ratio and period are the ideal ones, over any number of wraps and of resets, and the code's period is near the device's |
| DllWrappedClock.FirstCycleIsSteady | src/dll.c:178-195 | the code's counter at 48 kHz keeps that last promise: a reset, a transfer that boots the line and a cycle are such a run |
| DllWrappedClock.CloseIsCalm | src/dll.c:77-97 | a line may boot in such a run when its period is within a third of the device's and the jitter is up to an eighth of it |
| DllWrappedClock.NominalLineIsCalm | src/dll.c:59-62 | the loop as it is initialised is such a line for every size of transfer and every device whose period is within a third of the nominal one |
| DllWrappedClock.PeriodIsFound | src/dll.c:88-97 | after 17 / w transfers, 27.1 s of them at the code's gain, the filtered period is within a quarter of the device's, with jitter of up to a sixteenth |
| DllWrappedClock.RestartIsCalm | src/dll.c:169-175 | so from then on a reset finds such a line again |
| HostLoop.StagesAreSums | src/dll.c:146-161 | after any errors the first two stages are the errors weighted by w (1-w)^age and (age+1) w^2 (1-w)^age, times w1, plus what is left of what they held; the third is w2 times the sum of the second; within the clamp ratio and the last two stages make 1 |
| HostLoop.PositiveErrorsLowerRatio | src/dll.c:146-149 | from cleared stages, positive errors make the filter's ratio less than 1 from the first cycle on |
| HostLoop.RatioNeverRises | src/dll.c:146-161 | and as long as they do not fall neither ratio rises, before or after the clamp |
| HostLoop.NegativeErrorsRaiseRatio | src/dll.c:146-149 | negative errors make it more than 1 |
| HostLoop.RatioNeverFalls | src/dll.c:146-161 | and as long as they do not rise neither ratio falls |
| HostLoop.LastingErrorIsClamped | src/dll.c:148-161 | a positive error that lasts is answered in full: from some cycle on the ratio is the least that the clamp allows |
| HostLoop.LoopAnswersErrors | src/dll.c:109-161 | between two changes of the filter the stages and the ratio of the loop are those of the errors measured since, with any arrivals and reads between the cycles |
| HostLoop.FilterTracks | src/dll.c:204-206 | for every bandwidth, cycle, ratio and rate the gains make a loop damped by 0.8 whose natural frequency per cycle is the bandwidth's |
| HostLoop.GainsAreDetermined | src/dll.c:204-206 | and no other gains do |
| Status.StatusWord.PublishReady | src/engine.c:761-763 | the unguarded write that leaves STOP |
| Status.StatusWord.Set | src/engine.c:1010-1018 | a stopped engine keeps its status |
| Status.StatusWord.RequestClear | src/engine.c:865-873 | only a running engine is asked to clear |
| Status.StatusWord.EnterBoot | src/engine.c:783-790 | a stopped thread returns, any other boots |
| Status.StatusWord.LeaveTop | src/engine.c:805-828 | CLEAR becomes RUN, BOOT becomes WAIT, and without a DLL everything becomes RUN; a stopped thread returns |
| Protocol.MainMoves | src/engine.c:737-862 | how the engine's own thread can change status and place in one step |
| Protocol.CycleTarget | src/resampler.c:449-533 | what a cycle can decide, given the statuses it had sampled |
| Protocol.StepKeepsInv | src/resampler.c:228-248 | every step of either thread keeps the protocol's invariant, including what a stale sample still says |
| Protocol.StatusesStayCoupled | src/resampler.c:401-533 | between host calls, in every run: READY excludes CLEAR and RUN; BOOT and TUNE imply WAIT or a stop; RUN and RETUNE imply RUN, CLEAR or a stop |
| Stopping.StopIsFinal | src/engine.c:1009-1018 | once READY was published a status of STOP or ERROR never changes again |
| Stopping.OneTransferPerDirection | src/engine.c:329-363 | at most one transfer per direction is in flight, and none while its callback runs |
| Stopping.NoSubmissionAfterStop | src/engine.c:329-363 | after a stop nothing is submitted, except by a callback that had already passed its check |
| Stopping.ThreadReturns | src/engine.c:767-861 | a stopped thread that does not wait for the host returns within a measure that each of its own steps decreases |
| Stopping.StopWhileAwaitingHangs | src/engine.c:770-772 | a stop during that wait is never noticed, whatever happens |
| Stopping.StopIsNoticed | src/engine.c:767-861 | every long enough run after a stop has ended the thread exactly when the stop did not find it waiting |
| Serving.TransfersStayInFlight | src/engine.c:329-363 | in every run whose first two submissions succeed, from READY on, the transfer of each direction is in flight or its callback is at work, unless the engine is stopped, as it is by a later submission that fails |
| Serving.BootsFromSteady | src/engine.c:766-790 | in every run, with or without a DLL, the engine boots only from STEADY, or is stopped and done |
| Serving.TopIsLeft | src/engine.c:803-828 | in every run an engine that leaves the top of its loop is stopped and done, or at least waiting, running if it had to clear or has no DLL, and it reads only if it has no DLL |
| Serving.EventsAreHandled | src/engine.c:792-852 | an engine that is not stopped handles USB events again within eight of its own steps, however often it is asked to clear or boot, if nobody sends it back at the last moment |
| Serving.ClearEndsInRun | src/engine.c:830-851 | one that was asked to clear and is left alone comes to handle events in RUN, within eight steps |
| Ring.FrameBytesIsWhole | src/engine.c:1051-1056 | it is the largest whole number of frames that is not more |
| Ring.WriteConserves | src/engine.c:145-150 | a write that fits is appended whole |
| Ring.ReadConserves | src/resampler.c:286-293 | a read or discard of what is there takes exactly the front |
| Ring.DiscardAlignment | src/engine.c:848-850 | discards in USB frames always leave whole float frames exactly when the two sizes are equal |
| Transport.FramesAreConserved | src/engine.c:145-155 | in every run, for any track sizes, taken bytes followed by the ring's are the accepted ones in order; what was accepted is whole transfers from the device and whole frames to it; the rings hold whole frames, the one to the device if the frame sizes are equal |
| Transport.NothingIsShort | src/resampler.c:385-396 | no operation after a space check is short, whatever the other thread did in between |
| Transport.EngineMovesTransfers | src/engine.c:252-257 | a fetched transfer is the next accepted data, and a stored one goes in whole or not at all |
| Transport.ReaderCountsWhatItTakes | src/resampler.c:283-325 | the frames counted by the DLL are the ones taken from the ring, next in order |
| Callbacks.AcceptedIsOffered | src/engine.c:123-156 | in every run the ring from the device has accepted exactly the samples, in order, of the transfers that came complete, with the option on, found RUN when the line was updated, and room when the space was looked at |
| Callbacks.EveryRequestIsAnswered | src/engine.c:206-301 | in every run, what each out callback did follows from the option, the frames and the status that it saw: it mutes, starts to read and empties, or sends the next transfer, the stretched rest or silence; the blocks are written unless there was nothing to change |
| Calls.AcceptedIsWritten | src/resampler.c:356-396 | in every run the ring to the device has accepted exactly the frames, in order, of the cycles that found the resampler in RUN or RETUNE, got what they had requested, and found room |
| Calls.ReadersTakeWhatWaits | src/resampler.c:273-325 | a reader that reads takes what waits, up to five whole frames; one that does not starts exactly when a cycle waits, and drops all whole cycles; the frames returned are counted |
| Calls.ClearsDropAll | src/resampler.c:159-169 | a clear has dropped all that waited when it looked, and stopped the reading, before the engine is asked to clear |
| Calls.ClearsAreDue | src/resampler.c:152-531 | every entry to RUN, every retuning, every reset and every call that asks for it clears the buffers once, and nothing else does |
| Calls.ResetsForceBoot | src/resampler.c:229-246 | a reset sends the engine back to BOOT exactly when it had found it beyond BOOT and nobody has stopped it since |
| Calls.CallsReturn | src/resampler.c:401-545 | no call of the host goes on for more than ten of its own steps, whatever the engine does |
| Silence.SilenceUntilReading | src/engine.c:232-242 | in every reachable state an engine that is not reading has only zeros to send |
| Silence.ReadingStartsInRun | src/engine.c:217-230 | a driven engine starts to read only in RUN with a whole transfer waiting |
| Earned.DecideEntry | src/resampler.c:474-533 | each act of a cycle if and only if its condition: TUNE after booting for 3 s with less than a frame of error, a restart of tuning after an xrun or clamp, RUN after 4 s without, RETUNE from RUN after an xrun or clamp |
| Earned.EveryRunIsEarned | src/resampler.c:449-533 | every decision to run comes more than 4 s after the tuning started, all later cycles clean, with an error below one frame, and after more than 3 s of booting or an earlier run since the reset |
| Earned.RunOnlyByEntry | src/resampler.c:505-514 | the status turns to RUN only right after such an earned decision |
| Verdicts.HistoryDetermines | src/resampler.c:449-533 | in every run with JACK's times in order each cycle did exactly what the entries before it and its own inputs demand, and between two calls the status and phase_start are what the entries say |
| Verdicts.NoXrunIsMissed | src/resampler.c:520-533 | no cycle in RUN with an xrun or a clamp is passed over: it retunes, and when its call returns the status is RETUNE and the phase starts at its time |
| Calls.CyclesTellTheTruth | src/resampler.c:402-472 | when a cycle's call returns it came too early and changed nothing, or made one entry with JACK's time and xrun, the error, the status before, and whether the filter's ratio was outside the clamp |
| Reached.StopCanBeMissed | src/engine.c:755-772 | from every initial world a run leads to a stop that finds the thread spinning, which then never ends |
| Reached.ReadyIsReached | src/engine.c:737-837 | from every initial world, for every size of transfer up to 224 frames: JACK sets its rate and its buffer size, with the counters that the code computes at 48 kHz, the engine starts, and a transfer arrives and boots the device's side |
| Reached.WaitingLeadsToRun | src/resampler.c:449-514 | from there three cycles lead to BOOT, from BOOT to TUNE, and from TUNE to RUN on both sides, whatever the filter's exponentials are |
| Reached.RunIsReached | src/resampler.c:401-533 | so every initial world leads to BOOT, on to TUNE, and on to RUN |
| Reached.EarnedRunIsReached | src/resampler.c:505-514 | so from every initial world there is a run with an entry to RUN, and it is earned |
| AudioReached.RunsAlone | src/engine.c:737-837 | without a DLL the engine's thread alone leads from every initial world to RUN, reading at once |
| AudioReached.AudioArrives | src/engine.c:123-156 | from every initial world, for any samples: the host runs and clears, the engine comes back to RUN, the first transfer lies in the ring until the host starts to read, and of the second the host gets the first frames |
| AudioReached.AudioLeaves | src/engine.c:206-257 | from every initial world with a ring for a few transfers: JACK plays, the engine starts to read when a transfer waits, and then sends the device what JACK plays |
| Reached.PartOfFrameIsReached | src/engine.c:846-851 | from every initial world whose ring has room for a frame, for every USB frame shorter than the float frame, a run that leaves a part of a frame in the ring |
| Reached.RingHoldsWholeFrames | src/engine.c:846-851 | from such a world the ring to the device holds whole frames in every run exactly when no input track has 3 bytes |
| Reached.RingsHoldWholeFrames | src/engine.c:846-851 | the same over all initial worlds, for transfers of any size; beyond 224 frames the failing run starts from a memory with two points at the frame that the host waits for |
| Requests.FrameAccumulator.Request | src/resampler.c:369-372 | the frames to request and the fraction kept back |
| Requests.RequestsFollowRatio | src/resampler.c:369-372 | after any sequence of cycles requested and due frames differ by less than one, which is what the accumulator holds |
| Requests.RequestBounds | src/resampler.c:369-372 | a request is non-negative and at most scale times the buffer if the ratio is at most scale |
| Requests.RequestsFitBuffer | src/resampler.c:190-194 | all requests within the clamp fit the buffer exactly from 12 kHz on |
| Rates.RatioStaysClamped | src/dll.c:149-161 | in every run the ratio stays within a factor of two of the nominal one |
| Rates.RequestsStayBalanced | src/resampler.c:354-372 | in every run requested and due frames differ by less than one |
| Rates.RequestsFit | src/resampler.c:190-194 | in every run no request is negative, nor too large for the buffer from 12 kHz on |
| Phases.GainsFitPhase | src/resampler.c:456-525 | in every run, while the resampler boots, tunes or runs, the gains are those of a loop damped by 0.8 with a bandwidth of 1, 0.5 or 0.05 Hz, for JACK's present cycle and rate and a ratio within the clamp, its first stages follow twenty times faster, and so the filter answers in the right direction |
| Connected.CycleIsLoop | src/resampler.c:441-533 | a cycle does to the loop one measurement and, if it changes phase, one change of the filter |
| Connected.MachineRunsTheLoop | src/resampler.c:218-226 | the loop in every run of the two threads is that of a run of the loop's own events |
| Connected.MachineAnswersErrors | src/resampler.c:441-472 | so in the machine too: between changes of the filter and resets the stages are the sums over the errors measured since, and the ratio answers them |
| Connected.MachineIsIdeal | src/resampler.c:441-445 | so, from the beginning and again from every reset, error, ratio and period in the machine are the ideal ones |
| Connected.SteadyMachineIsIdeal | src/resampler.c:441-445 | in particular over any number of resets, when after each of them the line that boots is calm, the device keeps its period up to its jitter, cycles come after the first transfer and began within 34 s of the last, before or after it, and the backlog and the boot's correction stay within 31 bits |
| Samples.SwapReverses | src/engine.c:113 | the byte swap reverses the four bytes |
| Samples.ShiftedMemory | src/engine.c:108-111 | the shift drops the lowest byte and repeats the sign |
| Samples.PacketsAreBigEndian | src/engine.h:34-35 | the most significant byte comes first, on type 3 after a byte of sign |
| Samples.SampleRoundTrip | src/engine.c:188-197 | the top 24 bits come back, all 32 on unshifted 4-byte tracks, whatever the variable held |
| Samples.LowByteSurvives | src/engine.c:104-113 | exactly when all 32 bits come back on the other tracks |
| Blocks.SamplesAreInPlace | src/engine.h:42-68 | every sample lies encoded at the published address in its block |
| Blocks.HeadersAreUntouched | src/engine.h:217-223 | only the counter changes in front of the samples |
| Blocks.TransferRoundTrip | test/tests.c:169-243 | reading back a written transfer returns each sample at its own place, for any tracks and any number of blocks |
| Codec.UsbBuffers.constructor | src/engine.c:443-513 | cleared buffers with a header in every output block, and a counter of zero |
| Codec.UsbBuffers.WriteUsbOutputBlocks | src/engine.c:168-203 | the transfer becomes its image; headers and padding stand; the n-th block ever written carries 7 n modulo 65536 |
| Codec.UsbBuffers.ReadUsbInputBlocks | src/engine.c:87-119 | the samples are the readout of the transfer, from any initial value of the variable |
| Codec.UsbBuffers.Loopback | test/tests.c:206-222 | a transfer sent straight back returns every sample as far as its track can carry it |
| Codec.FramedImage | src/engine.c:504-508 | writing keeps all headers and paddings, and puts in the counters |
| Codec.NumbersRepeat | src/engine.c:179-180 | two blocks carry the same counter exactly when a multiple of 65536 blocks lies between them |
| Recorder.CountOutputs | src/main-record.c:249-265 | the number of tracks that the mask selects |
| Recorder.OutputsAreSelected | src/main-record.c:159-161 | it is the number of tracks that are recorded exactly when the mask selects none that does not exist |
| Recorder.TransferFits | src/main-record.c:301-303 | every call of the engine fits the buffer exactly when its size is not zero |
| Recorder.ProjectionAt | src/main-record.c:155-186 | every selected sample of every frame is at its rank in the projection |
| Recorder.TrackBuffer.constructor | src/main-record.c:301-312 | an empty buffer that is marked ready |
| Recorder.TrackBuffer.HandOverPending | src/main-record.c:144-152 | the locked section of the producer |
| Recorder.TrackBuffer.Write | src/main-record.c:131-200 | the pending samples are handed over when the input might not fit, then the selected samples are appended |
| Recorder.TrackBuffer.Dump | src/main-record.c:113-120 | the locked section of the consumer |
| RecorderRuns.NothingIsLostBetweenBuffers | src/main-record.c:131-186 | in every run the chunks handed over and the pending buffer are the projection of all input, and the header counts the frames handed over, exactly when the transfers of one hand-over are whole frames of the file |
| RecorderRuns.HandOverWhenFull | src/main-record.c:141-152 | a hand-over has nothing, or as many transfers as follow from the options |
| RecorderRuns.HandOversAreWhole | src/main-record.c:146-149 | every number of transfers is whole frames exactly when one transfer is; then hand-overs are whole for every size of the buffer |
| RecorderRuns.FittingMaskIsWhole | src/main-record.c:249-265 | a mask that fits is enough |
| RecorderRuns.OverlongMaskCanBeWhole | src/main-record.c:249-265 | but not needed: fourteen tracks selected out of twelve lose nothing |
| RecorderRuns.OverlongMaskCanTear | src/main-record.c:249-265 | options and a mask with which hand-overs do tear |
| RecorderRuns.OddTransfersCanBeWhole | src/main-record.c:301 | and others, with half the buffer, with which they do not, although one transfer is not whole frames |
| RecorderRuns.TornRun | src/main-record.c:144-152 | whenever they do, a run from every initial state whose chunks and pending buffer are not the projection of the input |
| RecorderRuns.FileKeepsOrder | src/main-record.c:106-128 | the file has chunks in their order, each at most once |
| RecorderRuns.LostChunks | src/main-record.c:143-152 | exactly the chunks overtaken by the next hand-over are missing |
| RecorderRuns.FileIsComplete | src/main-record.c:106-128 | the file lacks at most the latest chunk exactly when every hand-over found the buffer empty |
| RecorderRuns.StoppedRun | src/main-record.c:325-328 | what the dumper does after a request to end, in either of the two places it can be |
| RecorderRuns.JoinReturns | src/main-record.c:325-328 | the dumper ends exactly when the request did not find it between looking and writing |
| RecorderRuns.StopCanBeLost | src/main-record.c:108-125 | a run in which it never ends |
| Interleave.CopyO2j | src/jclient.c:160-173 | JACK's buffers get the tracks of the frames, cell by cell in order |
| Interleave.CopyJ2o | src/jclient.c:175-188 | the frames get JACK's buffers, place by place in order |
| Interleave.InterleaveInverts | test/tests.c:257-302 | what was taken apart is put together again, for any number of frames and tracks |
| Interleave.DeinterleaveInverts | test/tests.c:257-302 | and the other way round |
| Interleave.Scatter | src/jclient.c:169 | one step writes one cell, which it reports, and no other |
| Interleave.EachCellOnce | src/jclient.c:164-172 | the cells reported along the loop are every cell exactly once |
| Interleave.Loopback | test/tests.c:257-302 | audio through both loops comes back |

## Left out

- DllLoop.SpanStaysPositive: for an exact clock at the nominal rate; for other clocks `DllLoop.SpanOnJitteryClock` bounds the span, as long as the energy is small.
- Dll.TunedMeansBelowOneFrame: takes the value that x86 produces for the conversion of an error beyond 31 bits, and its magnitude; C leaves both the conversion and abs of that value undefined, and a machine on which abs leaves it negative calls such an error tuned.
- Recorder.TrackBuffer.Write: excludes a buffer of no kilobytes, the option `-s 0`, which src/main-record.c:392 takes unchecked: then every call is more than the buffer holds (`Recorder.TransferFits`), and the copy runs past its end.
- Stopping.ThreadReturns: assumes that each call that handles USB events delivers a transfer or returns.
- Interleave.CopyO2j: asks for buffers that are pairwise distinct and as long as the cycle, as JACK's port buffers are.
- Rounding, NaN and overflow of doubles, and the scaling of floats to 32-bit integers: the DLL is over reals and the codec starts at the integer sample.
- The quotient of src/dll.c:120 when the two points have the same time, which can be before the device's side has booted: a parameter of each step.
- exp in the loop filter (src/dll.c:203): the value of 1 - exp(-x) is a parameter of each step, of which `Phases.GainsFitPhase` asks that it lies between x / (1 + x) and x, and below 1. So is the counter of src/dll.c:192 for the rates below 48 kHz at which the quotient is beyond 32 bits, which C leaves undefined; conversions to int that do not fit (src/dll.c:127, 194) give what x86 produces.
- The threads' fields as objects updated in place: `Machine` and `RecorderRuns` are on values, so aliasing between the engine's and the resampler's structures is not part of them.
- The contents of the resampler's input queue (src/resampler.c:363-367), which is indexed by bytes although its elements are floats, and the reallocation of buffers when the buffer size changes.
- `h2o_acc` is one variable for all resamplers of a process (src/resampler.c:354); the model has one resampler.
- Latencies and state reports (src/resampler.c:59-149), the recorder's meters and messages.
- What libusb, JACK, libsamplerate and libsndfile do inside: their results are inputs of the steps.
- The size checks of `ow_engine_init_mem` against a device opened before (src/engine.c:446-470).
- Setup, device discovery, naming, hotplug, the D-Bus service, the user interfaces and preferences: plumbing around this core.
