# Segling: verified model of the sensor path, the scheduler, the simulator and the command seqlock

Segling is a sailing autopilot: a C control loop on a Raspberry Pi reads an IMU and a
magnetometer over I2C, smooths and calibrates them, and shares state with a Go backend through
memory-mapped pages. This project models five of its parts in Dafny and proves what they do over
whole runs.

- **Fixed-point filter and compass heading** (`FixedPoint`, `FilterRuns`, `Heading`, `Trigonometry`,
  `HeadingAccuracy`): the Q15 exponential filter of `utils.c` against the exact rational filter and its
  limits under constant input; the polynomial heading over the reals, its order on the int16 grid, and
  its distance from the true direction. Sine and cosine are Taylor polynomials of every length from four
  terms on, which converge to them (`Trigonometry.TaylorConverges`).
- **AHRS and its calibrations** (`AhrsModel`, `Ahrs`, `SmoothingRuns`, `CompassCalibration`,
  `ImuCalibration`, `ReachableStates`): the object with its in-place buffers is `Ahrs.Ahrs`; `AhrsModel`
  says what the entry points mean in terms of the *list* of samples since the last reset; the other
  modules prove what runs of updates and of calibrations make of the readings.
- **Page seqlock** (`SeqlockProtocol`, `SeqlockSafety`, `SeqlockProgress`, `SeqlockReads`, `SeqlockTorn`,
  `CommandStore`): atomic steps of any number of writers and readers under every schedule; when they may
  give up; which reads return a committed payload; and the write and read paths of `storage.go` as
  methods on a byte page with the other processes' steps interleaved.
- **Slot scheduler** (`Scheduler`): the 15 ms slot loop with its jitter gate and failing sleeps.
- **I2C simulator** (`I2cModel`, `FrameFile`, `I2cSim`, `I2cRuns`): files of frames behind a cursor and
  a disconnect latch, refined to a tape of frames per address.

C widths are subset types, casts and shifts are written out, and C's truncating division is
`FixedPoint.TruncDiv`. `Arithmetic`, `Options` and `Bytes` are helpers. Angles and smoothing factors
are reals. The clock, the sleeps and the schedule of other processes are parameters, quantified over.

Results that differ from what one might expect:

- The filter's error bound is 32767/alpha (`FilterAccuracy`) and cannot be improved beyond rounding
  (`AccuracyBoundIsTight`). From below, a constant input is never reached: the filter stops
  floor(32767/alpha) short of it, exactly (`ConstantInputConverges`).
- The heading order is a fact about the integer grid: between reals the two cubics overlap at the seams
  (`SeamsOverlapOffGrid`). Due +x reads just under 360, not 0, and a quarter turn from the x axis is off
  by about 0.0002 degrees (`QuarterTurn`).
- `normalize_deg_0_360` is documented as wrapping degrees to [0, 360); its single correction does so
  exactly on [-360, 720) (`NormalizesExactly`).
- The seqlock byte is a toggle, not a counter, so whole write sections inside a read go unnoticed.
  A section that changes two payload bytes can therefore be read torn, whatever writer makes it
  (`TornReadReturns`, `ReaderGuaranteeExactly`). The source reads only the state page this way; that page
  has no writer in the repository. On the command page reads are committed payloads if and only if no
  command changes more than one byte of the initial payload (`CommandReadsExactly`), so never torn on the
  zero-filled page that the backend creates (`CommandPageNeverTorn`).
- Calibration works beyond the documented +/-4095 as long as three conditions on the spans hold
  (`CalibrationEqualisesExactly`). Runs that complete outside them can turn an axis round
  (`OutOfRangeReversal`: the int16 cast of the span wraps; `CalibrationOrderExactly` says when) or clamp
  samples of the run itself (`OutOfRangeClamp`; `ClampIdleExactly` says when).
- `controller/README.md` says that a handler is skipped when the loop is late; the code skips it when the
  loop is more than the limit *early* as well. It also says each step is one full 240 ms epoch; a failed
  sleep ends the epoch early, and the next step starts again at slot 0 from the boundary reached.
- Branches of the source that no call can take are proved unreachable where they stand: the retry and
  the error return of the unlocking CAS, the IMU's transition to FAILED, the floor of the mean span at 1,
  and the simulator's late check of the cursor.

## Model

| member | source | states |
|---|---|---|
| FixedPoint.FloatToQ15 | controller/src/utils.c:39-55 | the factor is always in [1, 32767], and inside that range it is the nearest Q15 integer |
| FixedPoint.FloatToQ15Monotone | controller/src/utils.c:39-55 | larger factors never map to smaller Q15 values |
| FixedPoint.BlendMove | controller/src/utils.c:57-65 | one blend moves `cur` by the floor of alpha times the distance and stays between `cur` and `raw`; cast and clamp are idle |
| FixedPoint.ClampIdleExactly | controller/src/utils.c:57-65 | cast and clamp are idle on every input if and only if alpha is at most 1.0 |
| FilterRuns.FilterAccuracy | controller/src/utils.c:57-65 | over every input sequence the fixed-point filter is at or below the exact rational one, by at most 32767/alpha |
| FilterRuns.AccuracyBoundIsTight | controller/src/utils.c:57-65 | for every alpha there are runs whose gap approaches the whole stall band |
| FilterRuns.RunOrder | controller/src/utils.c:57-65 | pointwise ordered inputs keep whole runs ordered |
| FilterRuns.RunContracts | controller/src/utils.c:57-65 | two filters fed the same inputs never move apart |
| FilterRuns.RunInHull | controller/src/utils.c:57-65 | every output stays in the hull of the start and the inputs |
| FilterRuns.FixedPoints | controller/src/utils.c:57-65 | the fixed points for a constant input are exactly the values from raw - floor(32767/alpha) to raw |
| FilterRuns.StepTowardLimit | controller/src/utils.c:57-65 | each step goes toward the input without overshoot, strictly until it stalls, and keeps the limit |
| FilterRuns.ConstantInputConverges | controller/src/utils.c:57-65 | within the initial distance in steps the filter is at its limit: the input from above, the edge of the stall band from below |
| Heading.NormalizesExactly | controller/src/utils.c:67-76 | the result is in [0, 360) if and only if the argument is in [-360, 720) |
| Heading.HeadingOrder | controller/src/ahrs.c:182-190 | headings of int16 fields are in (0, 360), depend only on direction, and order directions exactly as a counterclockwise sweep ending at +x, across all seams |
| Heading.QuarterTurn | controller/src/utils.c:88-110 | turning any nonzero field by a quarter turn adds 90 degrees modulo 360: to within 1e-12 degrees from off the x axis; from the x axis it adds between 0.0002 and 0.00022 degrees too much (+x) or too little (-x) |
| HeadingAccuracy.HeadingPointsToField | controller/src/utils.c:88-110 | for every nonzero field the heading is its true direction but for an angle whose sine is at most 0.0104, that is 0.6 degrees, against sine and cosine to any number of terms from four on |
| HeadingAccuracy.SignedPoints | controller/src/ahrs.c:192-212 | pitch and roll angles are as accurate, lie in (-180, 180.0002), have the sign of the tilt, and are zero but for 0.0002 degrees exactly when level |
| HeadingAccuracy.SignedOrder | controller/src/ahrs.c:192-212 | they grow with the tilt in front and turn toward zero as the other axis grows |
| Heading.SeamsOverlapOffGrid | controller/src/utils.c:88-110 | a concrete pair of real directions that the polynomial orders wrongly |
| AhrsModel.Extrema | controller/src/ahrs_calibration.c:44-82 | the model's extrema are the true least and greatest readings of the sample list |
| AhrsModel.ApplyAxisScale | controller/src/ahrs.c:22-33 | the corrected value is in the sensor range, and is the scaled value whenever that is; `CorrectedExactly` says which value |
| SmoothingRuns.CorrectedExactly | controller/src/ahrs.c:22-45 | each axis is its own reading less its own bias, times numerator over denominator truncated toward zero, or unscaled if the denominator is zero, saturated at +/-4095 |
| SmoothingRuns.UncalibratedReads | controller/include/integrations/ahrs.h:105-107 | with the record of program start or of a reset every reading is itself, saturated at +/-4095 |
| SmoothingRuns.FirstSample | controller/src/ahrs.c:145-151 | uncalibrated, the first sample becomes the smoothed field as it is, saturated, and the mode ACTIVE |
| SmoothingRuns.CompassRun | controller/src/ahrs.c:152-161 | over any samples while ACTIVE each smoothed axis is the filter over that axis's own corrected readings; nothing else changes |
| SmoothingRuns.ImuFirst | controller/src/ahrs.c:86-93 | the first sample is taken as it is, whatever the bias |
| SmoothingRuns.ImuRun | controller/src/ahrs.c:94-113 | over any samples while ACTIVE each gyro axis is the filter over its own readings and each accelerometer axis over its own readings less its own bias, saturated at the int16 limits |
| SmoothingRuns.ImuCapture | controller/src/ahrs.c:115-122 | the sample that ends a calibration is smoothed with the old bias, and the new bias is the smoothed accelerometer, that sample included |
| Ahrs.Ahrs.constructor | controller/src/ahrs.c:6-11 | program start: everything zero, alpha 0.1, invariant established |
| Ahrs.Ahrs.MagCalTryFinish | controller/src/ahrs_calibration.c:6-42 | succeeds exactly when all spans of the noted samples are wide, and then stores the fit of those samples |
| Ahrs.Ahrs.MagCalNoteSample | controller/src/ahrs_calibration.c:44-82 | appends to the sample list; running extrema and saturating counter keep describing it |
| Ahrs.Ahrs.ResetCompassCalibration | controller/src/ahrs_calibration.c:84-96 | forgets all samples and restores the unit calibration |
| Ahrs.Ahrs.CalibrateCompass | controller/src/ahrs_calibration.c:98-122 | behaves as the model over the sample list; rejects and completes exactly in the stated modes and counts |
| Ahrs.Ahrs.ResetImuCalibration | controller/src/ahrs_calibration.c:124-128 | zero bias, nothing else |
| Ahrs.Ahrs.CalibrateImu | controller/src/ahrs_calibration.c:130-142 | starts, captures the smoothed reading, or refuses |
| Ahrs.Ahrs.Init | controller/src/ahrs.c:51-75 | rejects alpha outside (0, 1) without effect; otherwise restarts both units and keeps the calibrations |
| Ahrs.Ahrs.UpdateImu | controller/src/ahrs.c:77-125 | the model's step, of which `SmoothingRuns` states the values; refuses exactly null samples and failed or disabled units, without effect; the FAILED transition is dead |
| Ahrs.Ahrs.MagCorrected | controller/src/ahrs.c:35-45 | fills the buffer with the corrected sample that `CorrectedExactly` describes |
| Ahrs.Ahrs.UpdateMagnetometer | controller/src/ahrs.c:127-163 | the model's step, of which `SmoothingRuns` and `CompassOutcome` state the values; refuses exactly null samples and failed or disabled units, without effect |
| Ahrs.Ahrs.GetData | controller/src/ahrs.c:165-216 | heading in [0, 360), equal to yaw, and within 0.6 degrees of the smoothed field; pitch and roll within 0.6 degrees of the tilt, with its sign, and about zero when level; all zero for inactive units and zero vectors; the rotation rates are zero |
| CompassCalibration.CompassOutcome | controller/src/ahrs.c:137-144 | a run is ACTIVE from the first n in [150, 16000) whose samples span 64 on every axis, with the fit of exactly those samples; otherwise FAILED from sample 16000; otherwise collecting; unless ACTIVE the record is the unit one and the smoothed field as before |
| CompassCalibration.CalibrationEqualisesExactly | controller/src/ahrs_calibration.c:24-39 | for all int16 samples: after a run that completes, corrected extremes of every axis span the mean span or one less, correction preserves order and the clamp changes no sample of the run, if and only if on every axis span and mean span fit int16 and the scaled half span stays below 4096 |
| CompassCalibration.CalibrationEqualises | controller/src/ahrs_calibration.c:24-39 | a run that completes with spans of at most 8190, as in the sensor range (`SensorRangeSpans`), at any constant offset, equalises in that sense |
| CompassCalibration.CalibrationOrderExactly | controller/src/ahrs_calibration.c:33-39 | after any run that completes, correction of an axis preserves order if and only if that axis's span and the mean span both fit int16 or both do not |
| CompassCalibration.OrderExactly | controller/src/ahrs_calibration.c:33-39 | the same equivalence for the fit of any wide int16 samples |
| CompassCalibration.OutOfRangeReversal | controller/src/ahrs_calibration.c:33-39 | a concrete run of 150 samples that completes, with a span of 40000, and whose record reverses the x axis |
| CompassCalibration.ClampIdleExactly | controller/src/ahrs.c:22-33 | without a wrap the clamp changes no sample of the run if and only if it would not change one half a span from the middle |
| CompassCalibration.OutOfRangeClamp | controller/src/ahrs.c:22-33 | a concrete run that completes, with spans of 10000, keeps the order, and has samples of its own clamped |
| CompassCalibration.FitIsExact | controller/src/ahrs_calibration.c:33-39 | for all int16 samples the bias is the exact middle, and numerator and denominator are the mean span and the span, less 65536 exactly when they exceed int16; none is zero |
| CompassCalibration.ScaledInRangeExactly | controller/src/ahrs.c:22-33 | the scaled distance x stays in the sensor range if and only if abs(x) times num is below 4096 times den |
| ImuCalibration.CalibrationCapturesReading | controller/src/ahrs_calibration.c:130-142 | from zero bias, first sample, start, next sample captures the reading itself as bias |
| ImuCalibration.StillSensor | controller/src/ahrs.c:94-122 | for a still sensor the smoothed accelerometer reaches its limit in [-floor(32767/alpha), 0] within the size of the reading and stays; gyros keep reading |
| ReachableStates.SmoothedStaysInRange | controller/src/ahrs.c:127-163 | after any calls, with any samples and calibration record, the smoothed field is in [-4095, 4095] and the heading in [0, 360) |
| ReachableStates.CorrectionFitsInt32 | controller/src/ahrs.c:22-45 | product and quotient of the correction fit C's int for all int16 operands |
| SeqlockProtocol.StepKeeps | interface/internal/storage/storage.go:202-289 | every atomic step of any writer or reader keeps the protocol invariant |
| SeqlockSafety.MutualExclusion | interface/internal/storage/storage.go:253-289 | under every schedule bit 0 is odd exactly while one writer is between its CASes; an even page is the initial page with the completed sections applied in order; nobody gets stuck |
| SeqlockSafety.UnlockSucceedsFirstTime | interface/internal/storage/storage.go:272-289 | the holder's unlocking CAS succeeds on its first spin and restores byte 0 |
| SeqlockProgress.WriterAccounts | interface/internal/storage/storage.go:253-270 | under every schedule a writer's spin count is the number of its attempts that found the page locked or the word changed; it gives up only after 4194304 of those |
| SeqlockProgress.TakesLock | interface/internal/storage/storage.go:258-268 | a writer that finds the page unlocked and at its CAS the word unchanged, whatever others did meanwhile, has the lock |
| SeqlockProgress.ReaderAccounts | interface/internal/storage/storage.go:227-238 | a reader reports the error only after 4194304 attempts that found the page locked at a look or byte 0 changed between looks |
| SeqlockProgress.ReturnsCopy | interface/internal/storage/storage.go:227-237 | a reader that has copied every byte between two looks at the same even byte 0 returns the copy |
| SeqlockSafety.GivingUpLeavesNoTrace | interface/internal/storage/storage.go:253-270 | for a writer that ends having given up, the run without any of its steps has the same page, log, readers and other writers |
| SeqlockTorn.RunWholeSection | interface/internal/storage/storage.go:202-220 | a writer undisturbed on an unlocked page commits its stores, and only those, in one pass |
| SeqlockSafety.CommandPageContents | interface/internal/storage/storage.go:212-218 | an unlocked command page holds the last completed opcode and two zeros; seven bits of byte 0 and bytes 4-127 never change |
| SeqlockSafety.ReaderSeesCommitted | interface/internal/storage/storage.go:222-239 | a read with no section completed in its window returns exactly the committed payload, for every order of the byte copy |
| SeqlockReads.SingleByteReadsCommitted | interface/internal/storage/storage.go:222-239 | when the sections change only one payload byte, every read under every schedule returns a payload committed during its window, however many sections complete in it |
| SeqlockTorn.TornReadReturns | interface/internal/storage/storage.go:222-239 | for any writer's section that changes two payload bytes and any number of such sections inside the window there is a schedule whose read returns a payload committed at no moment of it |
| SeqlockTorn.ReaderGuaranteeExactly | interface/internal/storage/storage.go:222-239 | over all payload writers and pages, every read with `gap` completed sections in its window returns a payload committed during it if and only if `gap` is zero |
| SeqlockTorn.CommandReadsExactly | interface/internal/storage/storage.go:212-239 | on the command page every read under every schedule returns a payload committed during its window if and only if no command changes more than one byte of the initial payload |
| SeqlockTorn.CommandPageNeverTorn | interface/internal/storage/storage.go:212-239 | so every read does on a page whose two reserved bytes start zero, as created and as commands leave it |
| CommandStore.Mapping.CommandsSeqWord | interface/internal/storage/storage.go:241-250 | the word is usable if and only if the page has four bytes and is aligned |
| CommandStore.Mapping.SeqLockCommandsBegin | interface/internal/storage/storage.go:253-270 | an unusable word is refused without a step; otherwise, under any interference, a run of the protocol that ends holding the lock, or having failed 4194304 attempts of its own in this call |
| CommandStore.Mapping.SeqLockCommandsEnd | interface/internal/storage/storage.go:272-289 | fails only on an unusable word; otherwise leaves the page with the command committed |
| CommandStore.Mapping.WriteCommand | interface/internal/storage/storage.go:202-220 | unmapped and misaligned pages are refused untouched, giving up means 4194304 failed attempts and leaves the command out of the log, and otherwise the page at the moment of unlocking is exact, whether the flush then succeeds or not |
| CommandStore.Mapping.ReadSeqlockedPayload | interface/internal/storage/storage.go:222-239 | a page of another length is refused, and giving up means 4194304 failed attempts; on success the buffer is a protocol read, equal to the committed payload if no section completed meanwhile, and on a page whose reserved bytes start zero a payload committed during the read in any case |
| Scheduler.DiffExactly | controller/src/controller.c:114-122 | the computed difference is the exact one in microseconds, rounded down or up by the order of the nanosecond fields |
| Scheduler.GateExactly | controller/src/controller.c:114-122 | exactly which offsets pass the jitter gate, by the order of the nanosecond fields |
| Scheduler.GateSandwich | controller/src/controller.c:131-134 | an offset within 500 us always passes, passing means under 501 us |
| Scheduler.DispatchExactly | controller/src/controller.c:128-142 | in any run iteration n belongs to the boundary 15n ms after the start and runs its handler if and only if one is registered and the clock is within the limit, in nanoseconds |
| Scheduler.Controller.Init | controller/src/controller.c:81-98 | succeeds if and only if comms and storage come up; epoch is then 0 and otherwise unchanged |
| Scheduler.Controller.AdvanceBoundary | controller/src/controller.c:143-152 | the next boundary is the normalised time exactly 15 ms later |
| Scheduler.Controller.RunSlot | controller/src/controller.c:128-152 | one iteration appends its record and keeps the run well formed |
| Scheduler.Controller.RunSlots | controller/src/controller.c:128-162 | the loop stops exactly after the first failed sleep before the last slot |
| Scheduler.Controller.Step | controller/src/controller.c:124-171 | one epoch: result, slots executed, records, and no drift of the boundary from start + 15 ms per iteration |
| Scheduler.DispatchWindow | controller/src/controller.c:131-137 | after a sleep, a handler starts in [boundary, boundary + 501 us) |
| Scheduler.DispatchSpacing | controller/src/controller.c:128-162 | two dispatches k slots apart are 15k ms apart within 501 us |
| Scheduler.SlotOrder | controller/src/controller.c:124-162 | within an epoch slots strictly increase; epochs never go back |
| Scheduler.LatenessFalls | controller/src/controller.c:128-162 | each skipped slot recovers at least 15 ms - w while late, then lateness is at most w |
| Scheduler.LateStartRecovers | controller/src/controller.c:128-162 | after enough skipped slots to make up the lateness the next test passes |
| FrameFile.WindowOfFrame | controller/src/comms_sim.c:140-143 | the byte offset of a register is that byte of the current frame |
| FrameFile.SpliceOfFrame | controller/src/comms_sim.c:263-265 | an in-place write changes that window of that frame and no other frame |
| FrameFile.LoadedExactly | controller/src/comms_sim.c:104-121 | a file is usable if and only if it is 1 to 255 whole frames; the error tells a broken frame from a wrong count |
| FrameFile.LoadedContents | controller/src/comms_sim.c:111-119 | its tape starts at the first frame and holds every byte of the file in order |
| I2cSim.Simulator.FreshPort | controller/src/comms_sim.c:45-68 | before first access 0x68 is imu.dat in frames of 14 from register 0x3B, 0x0C is mag.dat in frames of 6 from register 2, other addresses and missing files fail |
| I2cSim.Simulator.SimLoadDevice | controller/src/comms_sim.c:81-129 | loading changes no address's tape and reports the error of an unusable file |
| FrameFile.SeekPlace | controller/src/comms_sim.c:131-148 | the offset is where the file keeps that byte of that frame: reading there reads that part of the frame, writing there changes that part of that frame only |
| I2cSim.Simulator.SimSeekFrameReg | controller/src/comms_sim.c:131-148 | refuses a missing device, an unopened file and a register below the window, and otherwise seeks to the place of that register in the frame under the head |
| I2cSim.Simulator.CommsInit | controller/src/comms_sim.c:165-179 | rewinds every address to frame 0 and keeps every file |
| I2cSim.Simulator.CommsDeinit | controller/src/comms_sim.c:181-195 | closes the loaded devices, keeps every file |
| I2cSim.Simulator.ReadI2c | controller/src/comms_sim.c:197-237 | exactly the reference step of its address, whose result and data `ServedExactly` and `ReadReturnsFrame` state; other addresses and the rest of the buffer untouched |
| I2cSim.Simulator.WriteI2c | controller/src/comms_sim.c:239-274 | exactly the reference step of its address, whose result and effect `ServedExactly` and `FrameContents` state; no file changes size, other addresses untouched |
| I2cRuns.HeadCountsReads | controller/src/comms_sim.c:210-230 | the cursor counts the successful reads, of which there are at most as many as frames |
| I2cRuns.FrameContents | controller/src/comms_sim.c:263-268 | after any trace every byte of every frame is the last one accepted there, or the original |
| I2cRuns.ReadReturnsFrame | controller/src/comms_sim.c:216-230 | after any trace, a successful read with k successful reads before it returns the requested window of frame k as last written |
| I2cRuns.ServedExactly | controller/src/comms_sim.c:203-232 | after any trace an access succeeds if and only if frames remain, it has 1 to 128 bytes and they lie within the registers of the frame, last one included; otherwise the failure code and no data |
| I2cRuns.WholeFrameRead | controller/src/comms_sim.c:216-230 | while frames remain, reading a whole frame succeeds and returns it as last written |
| I2cRuns.BrokenStays | controller/src/comms_sim.c:203-208 | an unusable address answers every access with the error of its load, for ever |
| I2cRuns.WriteThenRead | controller/src/comms_sim.c:239-274 | a read of a range just written returns what was written |
| I2cRuns.DurableAcrossSessions | controller/src/comms_sim.c:181-195 | after deinit and init, in a session that reads and writes, read k returns frame k as last written in that session, or else as the earlier session left it |
| I2cRuns.RepliesIndependent | controller/src/comms_sim.c:150-163 | after any interleaved trace each access gets the reply its own address's accesses alone would give |

## Left out

- IEEE-754 rounding, NaN payloads: angles and alpha are reals; the domain error of atan2 is `None`. The heading's distance from the true direction is proved for the polynomial over the reals.
- `ahrs_step` and the other slot handlers are not part of this model: a handler is an opaque step that does not change the scheduler's fields.
- `controller_init` never sets the first boundary; the model takes any normalised time.
- 64-bit overflow of the clock difference: seconds are unbounded integers. The epoch counter does wrap.
- The `mu` mutex of a `Store`: writers of one process are serialised by it, the model lets all writers interleave, which includes those schedules.
- Weak memory ordering, and a process that stops while holding the seqlock.
- `ReadSnapshot` and decoding the payload. Reads are modelled on the command page, whose writer is in the repository, and on pages of writers with any payload stores.
- Opening and mapping files, and what a flush does (its result is a parameter); stdio errors and buffering in the simulator: once a file is open its reads and writes succeed and are immediate. The 512-byte path check is never reached, since the directory name is at most 255 characters.
- `controller/src/storage.c` holds stubs, so there is no C-side publisher to model; `SeqlockSafety.ReaderSeesCommitted` is for writers with any payload stores instead.
- Hardware I2C, logging, HTTP, websockets, the web interface and the data generator.
