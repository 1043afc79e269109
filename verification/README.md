# Machine-checked model of the care robot's critical paths

This project models, in Dafny, the parts of the robot software whose correctness runs over whole
executions, and proves what their comments and documentation promise. `dafny verify dfyconfig.toml`
checks everything.

* **The static allocator of the base controller** (`PoolHeap`, `PoolLinks`, `StaticPool`, `PoolRuns`).
  Memory is one byte array indexed by absolute address; every header is read from and written to its
  bytes there, so stale and split headers are real. The block list is a ghost view that the bytes are
  proved to agree with.
* **The motor command path** (`Words`, `Encoder`, `MotorOutput`, `SpeedControl`, `MotorSafety`,
  `ControlSpec`, `ControlCore`, `ControlRuns`, `ControlLaws`, `ControlTask`, `RxRing`, `AsciiGrammar`,
  `ProtocolAscii`, `IoTask`, `MotorPath`, `MotorProofs`, `MotorReplies`, `CmdVel`, `LineBuilder`). The objects of the firmware are
  classes proved against functions; the concurrency is a machine of atomic steps in which receive
  interrupts may come between any two steps and the control task preempts the IO task. True time is an
  unbounded integer, and the code sees it modulo 2^32.
* **The trip state machine and its service calls** (`MissionSpec`, `MissionMachine`, `MissionRuns`,
  `CallQueue`, `MissionNode`), **the phone-link watch** (`LinkWatch`) and **the alarm monitor**
  (`SafetySpec`, `SafetyRuns`, `SafetyRecovery`, `SafetyMonitor`). Times are reals. What the watch and
  the monitor decide is compared with plain definitions over the history of messages, in both
  directions.
* **The telemetry queue and the life of an alarm in the database** (`Outbox`, `SosLog`, `SosAcks`,
  `SosEvents`, `SosRestart`, `SosAgent`), and **keys that sort by time** (`PushIds`).

Three statements hold only under a condition that the code does not enforce by itself. The project gives the
exact condition of each and a case in which it fails:

* Following is off outside a trip, unless a disable finds no service until its deadline and nothing is ordered
  after it (`CallQueue.LastWordExactly`); whether it is ever ordered again without the user is
  `CallQueue.RepairedExactly`, and `CallQueue.LostDisableLeavesFollowOn` is a run in which it is not.
* Keys of one millisecond are in order until the chance part runs out (`PushIds.NextIsLater`).
* A velocity command stops driving 200 ms after its stamp, unless the stamp lies before the tick the command is
  dated to (`CmdVel.OverrunsExactly`); 201 ms is never reached, and `CmdVel.BoundIsTight` comes within two
  nanoseconds of it.

Where the source's comments and its code differ, the model follows the code: `\r` ends a line as `\n`
does, text after an embedded NUL is ignored, and a signed second number needs no blank before it.

## Model

| member | source | states |
|---|---|---|
| StaticPool.Pool.constructor | firmware/base_controller/App/Src/static_pool.c:78-124 | init aligns the start up and the end down; the arena is one free block with the end marker behind it, or capacity 0 when two headers and the marker do not fit; no byte outside the given stretch changes |
| StaticPool.Pool.Place | firmware/base_controller/App/Src/static_pool.c:35-76 | the search for the place and the merging on both sides leave one merged header, linked onward, and change at most that header and the one linking to it |
| StaticPool.Pool.InsertFree | firmware/base_controller/App/Src/static_pool.c:35-76 | giving a block back keeps the headers in memory equal to a tiled, address-ordered block list, writes into unused headers only, and leaves no in-use mark where the block began |
| StaticPool.Pool.FindFit | firmware/base_controller/App/Src/static_pool.c:146-163 | the list walk stops at the first free block large enough, or at the end exactly when there is none |
| StaticPool.Pool.TakeBlock | firmware/base_controller/App/Src/static_pool.c:164-181 | unlink, split and mark serve the front of the chosen block, give the rest back, and keep every block in use byte for byte |
| StaticPool.Pool.Alloc | firmware/base_controller/App/Src/static_pool.c:126-187 | NULL exactly when no run of free bytes is as long as the rounded request; otherwise the lowest such run, of which no more is taken than the least aligned size that holds the request, or up to a block less than two headers larger; every other free byte stays free; counters, accounting and the bytes of live blocks as stated |
| StaticPool.Pool.LiveBlockIsLive | firmware/base_controller/App/Src/static_pool.c:189-213 | the ownership check accepts exactly the payloads in use, among NULL, payloads in use and pointers it rejects |
| StaticPool.Pool.Free | firmware/base_controller/App/Src/static_pool.c:215-237 | exactly a live payload is released and its block merged with free neighbours; anything else changes no memory; a freed pointer is no longer accepted |
| StaticPool.Pool.PayloadSize | firmware/base_controller/App/Src/static_pool.c:239-248 | the payload size of a live block, and 0 exactly for a pointer that is not live |
| StaticPool.Pool.Realloc | firmware/base_controller/App/Src/static_pool.c:250-290 | grows by copy: a moved payload carries all its old bytes; a failed or unnecessary move changes no memory |
| StaticPool.Pool.Calloc | firmware/base_controller/App/Src/static_pool.c:292-310 | an overflowing product or no fitting run gives NULL with memory unchanged; otherwise all n*size bytes are zero and no other live byte changed; the counters in both cases |
| StaticPool.Pool.GetMetrics | firmware/base_controller/App/Src/static_pool.c:312-335 | the snapshot holds the counters and the size of the largest free block |
| PoolHeap.CoalesceKeeps | firmware/base_controller/App/Src/static_pool.c:46-75 | merging keeps the tiling, loses no byte, and leaves no two free blocks side by side |
| PoolHeap.FirstFitIsLowestRun | firmware/base_controller/App/Src/static_pool.c:146-181 | first fit finds the lowest run of enough free bytes, and fails only when there is no such run anywhere |
| PoolHeap.AllocTakesLeast | firmware/base_controller/App/Src/static_pool.c:161-181 | an allocation takes the least aligned size with room for header and request, exactly if two more headers' worth are free behind it and with less than that on top otherwise, and leaves every other free byte free |
| PoolHeap.FitsIffWithinLargest | firmware/base_controller/App/Src/static_pool.c:312-323 | a request can be served exactly if it is no larger than the largest free block |
| PoolHeap.PayloadWritesKeepLinks | firmware/base_controller/App/Src/static_pool.c:189-213 | whatever the owner writes into a payload, no header and no link of the heap changes |
| PoolRuns.HistoryKeepsArena | firmware/base_controller/App/Src/static_pool.c:126-237 | after any history of requests, releases and resizes the blocks tile the arena, no two free ones touch, and free plus live bytes are the capacity |
| PoolRuns.NothingLeaks | firmware/base_controller/App/Src/static_pool.c:215-237 | after any history that leaves nothing live the pool is the one free block it started as |
| PoolRuns.FreeUndoesAlloc | firmware/base_controller/App/Src/static_pool.c:126-237 | freeing what was just served restores the block list exactly |
| PoolRuns.AllocGives | firmware/base_controller/App/Src/static_pool.c:126-187 | what is served is aligned, inside the arena, large enough, was not live before, and all blocks in use stay |
| PoolRuns.PayloadsApart | firmware/base_controller/App/Src/static_pool.c:126-187 | payloads in use never overlap |
| PoolRuns.ReallocKeepsPayload | firmware/base_controller/App/Src/static_pool.c:250-290 | a resize that fails leaves the block list alone, and one that succeeds yields a payload of the new size |
| Words.UnsignedAge | firmware/base_controller/App/Src/motor_safety.c:33-45 | the unsigned age test is exact while the true age is below 2^32, through any number of clock wraps |
| Words.SignedDistance | firmware/base_controller/App/Src/control_core.c:211-222 | the signed deadline test is exact while the true distance is below 2^31 |
| Encoder.FoldIsDisplacement | firmware/base_controller/App/Src/encoder_accumulator.c:8-13 | the folded 16-bit difference is the true movement if and only if that is within -32768..32767 |
| Encoder.TicksAreDisplacement | firmware/base_controller/App/Src/encoder_accumulator.c:15-31 | over any sampling schedule of slow enough movement the accumulated ticks are sign times the true displacement |
| Encoder.Accumulator.Sample | firmware/base_controller/App/Src/encoder_accumulator.c:27-31 | one sample changes ticks and previous count as the accumulation function says |
| MotorOutput.CcrSound | firmware/base_controller/App/Src/motor_output.c:16-69 | never are both sides of a half bridge pulsed, and every compare value is within range |
| MotorOutput.CcrDirection | firmware/base_controller/App/Src/motor_output.c:31-59 | which side is pulsed is the sign of the clamped duty, and none exactly for zero |
| MotorOutput.CcrProportional | firmware/base_controller/App/Src/motor_output.c:16-69 | the pulse of each side is the share of 4667 counts asked for by the clamped duty, rounded down |
| SpeedControl.UpdateBounded | firmware/base_controller/App/Src/speed_control.c:89-141 | whatever the measurement, duty and integrator stay within their limits |
| SpeedControl.DutyIsLaw | firmware/base_controller/App/Src/speed_control.c:76-141 | the duty is feed-forward, intercept in the direction of the target, proportional term on target minus measurement and integrator, to the nearest permille or at the limit beyond it, which is what the saturation flag says; target zero rests |
| SpeedControl.FasterGetsNoMore | firmware/base_controller/App/Src/speed_control.c:106-108 | between integrations a wheel measured faster never gets more duty |
| SpeedControl.IntegratorFollowsError | firmware/base_controller/App/Src/speed_control.c:110-131 | the integrator rises only below the target and falls only above it, by exactly gain times error when no limit is in the way |
| SpeedControl.ConditionalIntegration | firmware/base_controller/App/Src/speed_control.c:112-133 | the integrator moves only when it may: one step, not while saturated in the direction of the error |
| SpeedControl.DutyIsNearest | firmware/base_controller/App/Src/speed_control.c:29-43 | the whole permille given is at most one half away from the clamped duty |
| SpeedControl.ReversalClearsIntegrator | firmware/base_controller/App/Src/speed_control.c:60-72 | a target of the other sign clears the integrator, any other target keeps it |
| SpeedControl.Wheel.Step | firmware/base_controller/App/Src/speed_control.c:89-141 | one controller step on the object is the update function |
| MotorSafety.AllowIsFreshness | firmware/base_controller/App/Src/motor_safety.c:33-53 | on true time output is allowed exactly without a fault and while the last command is younger than the time-out; the notice is raised exactly when age alone ends it; nothing else changes |
| MotorSafety.FedMeans | firmware/base_controller/App/Src/motor_safety.c:12-45 | feeding allows output for exactly the time-out on true time, and changes nothing under a fault |
| MotorSafety.Watchdog.OutputAllowed | firmware/base_controller/App/Src/motor_safety.c:33-53 | the object changes as the function says |
| ControlCore.Control.Finish | firmware/base_controller/App/Src/control_core.c:83-118 | the commit drives what is commanded if the watchdog allows, and otherwise coasts, notes the edge, and kills under a fault |
| ControlCore.Control.Tick | firmware/base_controller/App/Src/control_core.c:148-190 | one tick on the object is sampling, counters, closed loop and commit in that order |
| ControlCore.Control.Engage | firmware/base_controller/App/Src/control_core.c:224-247 | mode switch and targets by kind of command |
| ControlCore.Control.Apply | firmware/base_controller/App/Src/control_core.c:192-281 | a command is refused under a fault or past its deadline, else taken over, committed, and reported with what was committed |
| ControlCore.Control.UrgentStop | firmware/base_controller/App/Src/control_core.c:283-295 | an urgent stop coasts, latches the flags and commits |
| ControlRuns.DrivingMeansFreshCommand | firmware/base_controller/App/Src/control_core.c:83-118 | in every run through any number of clock wraps a driven bridge means the last applied command is a motion command accepted less than 200 ms before the last commit |
| ControlRuns.OutputAtAnyTime | firmware/base_controller/App/Src/control_core.c:83-118 | with commits at most p ms apart, output standing at any true time t rests on a motion command accepted less than 200 + p ms before t |
| ControlRuns.AppliedIffInTime | firmware/base_controller/App/Src/control_core.c:192-281 | a command is reported applied exactly if no fault is latched and it is younger than the watchdog time, and then with its clamped values |
| ControlRuns.FaultedStep | firmware/base_controller/App/Src/control_core.c:198-207 | under a latched fault every event kills the output, refuses commands and takes no flag back |
| ControlRuns.FaultsStay | firmware/base_controller/App/Src/control_core.c:198-207 | and so in every run |
| ControlRuns.FaultWakeSilences | firmware/base_controller/App/Src/rtos_app.c:438-502 | a wake that carries the fault bit ends undriven with every pending flag latched, whatever commands and tick share it |
| ControlRuns.SilentUntilMotionCommand | firmware/base_controller/App/Src/control_core.c:83-118 | once at rest the output stays zero until the core takes over a motion command; refused ones, too late or under a fault, bring nothing back |
| ControlRuns.LoopsAndOverrunsAreTicks | firmware/base_controller/App/Src/control_core.c:148-181 | in every run the last tick seen is loops plus overruns, modulo 2^32 |
| ControlRuns.TicksFollowShafts | firmware/base_controller/App/Src/control_core.c:148-190 | in every run each wheel's tick count is sign times the true displacement of its shaft, through counter wraps and merged ticks |
| ControlRuns.WatchdogEdge | firmware/base_controller/App/Src/control_core.c:95-106 | the notice is stamped, count and time, exactly at the commit at which output that was allowed is refused for age alone |
| ControlLaws.TickRunsLoop | firmware/base_controller/App/Src/control_core.c:148-190 | in velocity mode a new tick measures each wheel in ticks per second over the periods gone by and runs its controller on exactly that speed, integrating over single periods only; otherwise the duties stay |
| ControlLaws.VelocityTaken | firmware/base_controller/App/Src/control_core.c:232-247 | a velocity command aims the wheels at its clamped targets at once by the control law, and keeps an integrator unless mode or direction change |
| ControlLaws.ModeExactly | firmware/base_controller/App/Src/control_core.c:224-251 | in every run the loop is closed exactly while the last motion command taken over is a velocity command |
| ControlLaws.DutyDrives | firmware/base_controller/App/Src/control_core.c:224-231 | a duty command taken over drives the bridge with exactly its clamped duties at every commit until its 200 ms are over or a stop or another command is taken |
| ControlLaws.CountsExactly | firmware/base_controller/App/Src/control_core.c:211-218 | in every run urgent stops and late commands are each counted once, modulo 2^32, and the heartbeat goes with the loops |
| ControlTask.Task.Wake | firmware/base_controller/App/Src/rtos_app.c:430-510 | one wake leaves core and bridge where handling commands, velocity, faults and tick in that order leads; a fault wake ends undriven with all pending flags latched; the result mailbox holds the command result |
| ControlTask.Task.CallStop | firmware/base_controller/App/Src/rtos_app.c:178-191 | the given flags join the pending ones, none is taken back, and the call bit is set |
| CmdVel.CheckStampExact | firmware/base_controller/App/Src/agent_link.c:197-235 | a stamp is accepted exactly when clocks agree, it is set, and it is at most the limit away, past or future; the age is the true one rounded down |
| CmdVel.PostIsBackDated | firmware/base_controller/App/Src/micro_ros_app.c:418-430 | the command is back-dated by its age, in wrapped milliseconds |
| CmdVel.StampedCommandNeverOutlives | firmware/base_controller/App/Src/micro_ros_app.c:392-432 | end to end an accepted velocity never drives the bridge 201 ms or more after its stamp (plus the callback's own delay), whatever link, mailbox and clock wraps did |
| CmdVel.DrivesExactly | firmware/base_controller/App/Src/micro_ros_app.c:418-430 | from its receipt on a delivery can drive the bridge at an instant, in some run, if and only if it asks for any speed and fewer than 200 ticks have gone since the tick it is dated to |
| CmdVel.OverrunsExactly | firmware/base_controller/App/Src/micro_ros_app.c:426-430 | exactly the deliveries that ask for some speed, are less than 200 ms old by the rounded age and whose stamp lies before the tick they are dated to can drive 200 ms or more after their stamp |
| CmdVel.BoundIsTight | firmware/base_controller/App/Src/micro_ros_app.c:426-430 | a delivery and a run that drives the bridge on it 201 ms less two nanoseconds after its stamp: 200 ms would not be true, and the bound proved is reached |
| CmdVel.FutureStampsEndSooner | firmware/base_controller/App/Src/agent_link.c:211-232 | a delivery stamped in the future stops driving 200 ms after its receipt, sooner after its stamp than one stamped in the past may |
| CmdVel.Session.Callback | firmware/base_controller/App/Src/micro_ros_app.c:379-441 | every message is counted once as applied or rejected; what is posted and when; the sequence advances only with a post |
| RxRing.PushAppends | firmware/base_controller/App/Src/rx_ring.c:10-24 | a push appends or, exactly when 63 bytes wait, drops the new byte |
| RxRing.PopIsAtomic | firmware/base_controller/App/Src/rx_ring.c:26-38 | a pop interrupted by any bursts of pushes still takes the oldest byte, and the bursts stand behind the rest |
| RxRing.Buffer.PushByte | firmware/base_controller/App/Src/rx_ring.c:10-24 | the buffer appends or drops as the ring function, and says which |
| RxRing.Buffer.PopByte | firmware/base_controller/App/Src/rx_ring.c:26-38 | the buffer gives its oldest byte and keeps the rest, or says it is empty |
| AsciiGrammar.ParserIsGrammar | firmware/base_controller/App/Src/protocol_ascii.c:81-134 | a line is accepted with a meaning exactly if it is a sentence of the grammar with that meaning |
| ProtocolAscii.LineYields | firmware/base_controller/App/Src/protocol_ascii.c:156-204 | what a complete line yields: its command if it is a sentence and fits, nothing if empty, else a reject; the assembler is clean again |
| ProtocolAscii.PoisonedYieldsReject | firmware/base_controller/App/Src/protocol_ascii.c:145-204 | a poisoned line never yields a command, whatever follows before its end |
| ProtocolAscii.ParseI32 | firmware/base_controller/App/Src/protocol_ascii.c:14-63 | the cursor loop reads the number the grammar function reads, or fails with it |
| ProtocolAscii.ParseLine | firmware/base_controller/App/Src/protocol_ascii.c:81-134 | the C parser on a terminated buffer is the parse function |
| ProtocolAscii.Assembler.PushChar | firmware/base_controller/App/Src/protocol_ascii.c:156-204 | one character on the buffer is the push function |
| IoTask.Io.OnRxByte | firmware/base_controller/App/Src/app_main.c:65-88 | a received byte is kept, or with a full ring flagged and the motors stopped |
| IoTask.Io.SyncRxFaults | firmware/base_controller/App/Src/app_main.c:162-186 | exactly a pending fault empties the ring, poisons the line and calls a stop |
| IoTask.Io.Accept | firmware/base_controller/App/Src/app_main.c:233-314 | a receive fault pending at the decision is synchronised and answered err, with nothing posted or set; a setting takes effect without a sequence number; a motion command takes the next one, is posted, and is answered ok, with the values of the result, exactly for its own applied result |
| IoTask.Io.Poll | firmware/base_controller/App/Src/app_main.c:323-361 | one poll takes a stretch of the ring within its two limits, stops early only when the ring is empty, and replies once to each line that ended |
| MotorPath.TakeOk | firmware/base_controller/App/Src/app_main.c:336-345 | a command completed with no fault unsynchronised is exactly the bytes between two line ends |
| MotorPath.CommandMeans | firmware/base_controller/App/Src/app_main.c:233-249 | a command line becomes the command of its kind with its values in order, and the watchdog time for its deadline; the values an ok reports are its own, limited |
| MotorPath.BytesStep | firmware/base_controller/App/Src/app_main.c:65-100 | no step of any task or interrupt breaks the correspondence between bytes and lines |
| MotorProofs.ExecutedLinesAreExact | firmware/base_controller/App/Src/app_main.c:233-361 | for every interleaving a posted command or effective setting comes from the exact undamaged bytes between two line ends |
| MotorProofs.OkMeansApplied | firmware/base_controller/App/Src/app_main.c:276-296 | for every interleaving ok means exactly the last posted command, which came from the very line answered, was applied after it was posted, with the clamped values reported, and no receive fault unsynchronised |
| MotorProofs.OkAnswers | firmware/base_controller/App/Src/control_ack.c:3-32 | the same for any state the invariants allow |
| MotorReplies.OkExactly | firmware/base_controller/App/Src/app_main.c:276-296 | for every interleaving a motion command is answered ok exactly if its own result came in time, says applied, and no receive fault is unsynchronised |
| MotorProofs.OthersReplyErr | firmware/base_controller/App/Src/app_main.c:251-257 | no other step but a setting ever replies ok |
| MotorReplies.CommandIsExecuted | firmware/base_controller/App/Src/app_main.c:233-314 | a clean command line, with the control task awake for it within 200 ms and no fault, is posted, taken over by the core, and answered ok for that line with its clamped values |
| MotorReplies.SettingIsAnswered | firmware/base_controller/App/Src/app_main.c:259-272 | a clean setting takes effect and is answered ok |
| MotorProofs.OneReplyPerLine | firmware/base_controller/App/Src/app_main.c:345-360 | the k-th reply is for the k-th line that ended, and every ended line but one being worked on has its reply |
| MotorProofs.FaultFlagsAreNeverLost | firmware/base_controller/App/Src/rtos_app.c:178-201 | a raised flag is pending or latched at every moment of every interleaving |
| MotorProofs.CallsExactly | firmware/base_controller/App/Src/rtos_app.c:178-235 | the control task is called by exactly the steps that have something for it, and a call stands until it wakes |
| MotorProofs.NextWakeStops | firmware/base_controller/App/Src/app_main.c:65-100 | after any call for a stop, a byte lost, damaged or without room among them, the next wake carries the fault bit whatever comes between |
| MotorReplies.WakeIsHandled | firmware/base_controller/App/Src/rtos_app.c:438-502 | an uninterrupted wake handles exactly the letters whose bits are set, the fault call with all pending flags, and the tick, in that order |
| MotorReplies.VelocityIsExecuted | firmware/base_controller/App/Src/rtos_app.c:221-235 | a velocity the agent delivers is in the core after the next wake |
| MotorProofs.DrivenMeansFresh | firmware/base_controller/App/Src/rtos_app.c:438-502 | for every interleaving a driven bridge means a motion command accepted less than 200 + p ms before any time up to p ms after the last commit |
| MotorProofs.VelocityNeverOutlives | firmware/base_controller/App/Src/micro_ros_app.c:392-432 | for every interleaving of both command paths a bridge driven on a velocity of the agent means a stamp less than 201 + p ms old at any time up to p ms after the last commit (plus the callback's own delay) |
| MotorProofs.FaultCallSilences | firmware/base_controller/App/Src/rtos_app.c:469-473 | a wake called for a fault leaves the bridge undriven |
| MotorProofs.FaultCallStaysSilent | firmware/base_controller/App/Src/rtos_app.c:438-502 | and undriven it stays, whatever steps follow, until the control task takes over a motion command |
| LineBuilder.DigitsMeanNumber | firmware/base_controller/App/Src/line_builder.c:27-46 | the digits written stand for the number |
| LineBuilder.PutI64 | firmware/base_controller/App/Src/line_builder.c:27-46 | the digits are written backwards before the position, INT64_MIN included, or nothing fits |
| LineBuilder.Build | firmware/base_controller/App/Src/line_builder.c:48-95 | success exactly if the line fits, and then the buffer holds tag, decimals and newline at the returned offset |
| LineBuilder.PrintedCommandParses | firmware/base_controller/App/Src/line_builder.c:27-95 | a command line printed by this builder parses back to the same command |
| LineBuilder.EveryLineFits | firmware/base_controller/App/Src/app_main.c:424-453 | every line the firmware prints fits its 64-byte buffer, so the line-build fault is unreachable |
| LineBuilder.SpdMarginIsOne | firmware/base_controller/App/Src/app_main.c:424-453 | the longest telemetry line leaves one byte: the bound cannot be lowered by two |
| MissionRuns.OrdersMatchMovement | software/ros_pkgs/mr_mission/mr_mission/machine.py:65-162 | following is ordered on only by a start; leaving the moving states always orders it off |
| MissionRuns.CancellingEnds | software/ros_pkgs/mr_mission/mr_mission/machine.py:144-155 | while stopping, whatever arrives, no tick came later than the stop time-out after the stop began |
| MissionRuns.CancellingStep | software/ros_pkgs/mr_mission/mr_mission/machine.py:144-158 | a stop ends only at a tick, as cancelled or error, and at the first tick past the time-out |
| MissionRuns.FailedDisableIsRetried | software/ros_pkgs/mr_mission/mr_mission/machine.py:120-123 | a failed disable of a stop is ordered again exactly from the retry time on, once |
| MissionRuns.StartingEnds | software/ros_pkgs/mr_mission/mr_mission/machine.py:140-143 | a start ends at the first tick past its time-out |
| MissionRuns.NoAutomaticResume | software/ros_pkgs/mr_mission/mr_mission/machine.py:88-123 | nothing but a new start sets a stopped trip moving |
| MissionRuns.AbortEndsInError | software/ros_pkgs/mr_mission/mr_mission/machine.py:88-99 | a safety stop ends as an error with its message or the unconfirmed-stop one, unless the user cancels or starts |
| MissionRuns.StopEndsExactly | software/ros_pkgs/mr_mission/mr_mission/machine.py:144-155 | for every history exactly how a tick ends a stop: as cancelled, or as the safety stop's error, if and only if a disable went through since it began and either odometry is fresh and has stood still for the hold time, or it is not and the fallback time has passed since that disable; as unconfirmed if and only if not confirmed and timed out |
| MissionRuns.StopBeginsExactly | software/ros_pkgs/mr_mission/mr_mission/machine.py:76-99 | a stop begins exactly with a cancel of a trip or after an error, and with a safety stop of a trip |
| MissionRuns.UnderwayExactly | software/ros_pkgs/mr_mission/mr_mission/machine.py:65-74 | for every history the trip is starting exactly from an accepted start until stopped, answered or out of time, and active exactly from the success of its enable until somebody stops it |
| MissionRuns.DisablesExactly | software/ros_pkgs/mr_mission/mr_mission/machine.py:76-123 | exactly what orders a disable: every cancel but one of a stop under way, a safety stop, an enable that failed for the start in progress or succeeded for none, a start out of time, a retry due |
| MissionRuns.IdleExactly | software/ros_pkgs/mr_mission/mr_mission/machine.py:159-161 | until a new start a cancelled trip becomes idle, without a trip, exactly at a tick past the hold time |
| MissionMachine.Mission.BeginTrip | software/ros_pkgs/mr_mission/mr_mission/machine.py:65-74 | the object's new state and orders are those MissionSpec.Start gives: refused during a trip, else starting with one enable |
| MissionMachine.Mission.CancelTrip | software/ros_pkgs/mr_mission/mr_mission/machine.py:76-86 | the object's new state and orders are those of MissionSpec.Cancel: any state is told to disable, a stop under way is not restarted |
| MissionMachine.Mission.AbortTrip | software/ros_pkgs/mr_mission/mr_mission/machine.py:88-99 | the object's new state and orders are those of MissionSpec.Abort: nothing outside a trip, else the stop path with the message kept |
| MissionMachine.Mission.TakeResult | software/ros_pkgs/mr_mission/mr_mission/machine.py:101-123 | the object's new state and orders are those of MissionSpec.EnableResult, late successes disabled again |
| MissionMachine.Mission.TakeOdom | software/ros_pkgs/mr_mission/mr_mission/machine.py:125-131 | the object remembers the last odometry and since when all of it stood still, as MissionSpec.Odom says |
| MissionMachine.Mission.OnTick | software/ros_pkgs/mr_mission/mr_mission/machine.py:138-162 | the object's new state and orders are those of MissionSpec.Tick: time-outs, confirmed stop, retry, return to idle |
| CallQueue.FollowsOnlyDuringTrips | software/ros_pkgs/mr_mission/mr_mission/node.py:250-290 | in every run in which no disable is given up for want of a service, a disable stands behind every earlier enable outside a trip; once all is run, following is on only for a trip starting or active |
| CallQueue.LastWordExactly | software/ros_pkgs/mr_mission/mr_mission/node.py:250-290 | in every run, outside a trip, the last word to the follow node is on if and only if a disable alone in the queue was given up unsent, nothing has been ordered since, and the requests sent before left it on |
| CallQueue.GiveUpExactly | software/ros_pkgs/mr_mission/mr_mission/node.py:267-270 | giving up such a disable leaves the last word on if and only if the requests sent before do |
| CallQueue.RepairedExactly | software/ros_pkgs/mr_mission/mr_mission/machine.py:144-158 | a drained queue outside a trip orders something again without the user if and only if a retry is due before the stop times out |
| CallQueue.LostDisableLeavesFollowOn | software/ros_pkgs/mr_mission/mr_mission/node.py:267-270 | a run whose trip has failed with everything sent and run, and the follow node enabled, and that stays so in every continuation without a command of the user |
| CallQueue.OneRequestOut | software/ros_pkgs/mr_mission/mr_mission/node.py:258-286 | requests go to the service one at a time, in order |
| MissionNode.Dispatcher.Pump | software/ros_pkgs/mr_mission/mr_mission/node.py:258-286 | the pumping loop terminates, is a run of the queue machine, and ends with a head that has to wait or with none |
| MissionNode.Dispatcher.Execute | software/ros_pkgs/mr_mission/mr_mission/node.py:250-256 | orders join the queue with their deadlines, and the queue is pumped |
| MissionNode.Dispatcher.OnTick | software/ros_pkgs/mr_mission/mr_mission/node.py:187-190 | a timer callback pumps, runs the clock and executes what it orders |
| LinkWatch.StopExactly | software/ros_pkgs/mr_mission/mr_mission/safety.py:187-231 | a stop is ordered at exactly those calls at which a named trip is under way, none was ordered since it began, and no instant of the whole stop time, within trip and watch, was one with the link up |
| LinkWatch.OneStopPerTrip | software/ros_pkgs/mr_mission/mr_mission/safety.py:205-231 | between two stops a new trip began |
| LinkWatch.DownAgrees | software/ros_pkgs/mr_mission/mr_mission/safety.py:187-195 | the remembered time of the loss is the end of the last stretch of up instants of the history |
| LinkWatch.LinkMonitor.Link | software/ros_pkgs/mr_mission/mr_mission/safety.py:197-203 | the object changes as the watch function says for a link message, a loss dated back to when the link really went down |
| LinkWatch.LinkMonitor.Mission | software/ros_pkgs/mr_mission/mr_mission/safety.py:205-210 | the object changes as the watch function says for a mission message, a new trip restarting the count |
| LinkWatch.LinkMonitor.OnTimer | software/ros_pkgs/mr_mission/mr_mission/safety.py:212-231 | the object decides on a stop as the watch function does |
| SafetyRuns.OutputIsWellFormed | software/ros_pkgs/mr_mission/mr_mission/safety.py:61-154 | after any history requests and clears have alternated with matching ids, with at most one stop per alarm, and the open alarm is the one held |
| SafetyRuns.StopsOnlyUnderway | software/ros_pkgs/mr_mission/mr_mission/safety.py:108-115 | a stop is ordered only for the open alarm, unanswered, with the trip under way |
| SafetyRuns.StopsExactly | software/ros_pkgs/mr_mission/mr_mission/safety.py:108-115 | a stop is ordered exactly at a negative answer for the alarm the output leaves open, not yet stopped, during a trip |
| SafetyRuns.RaisedExactly | software/ros_pkgs/mr_mission/mr_mission/safety.py:90-98 | the user's alarm is sent at exactly those presses at which the output leaves none open, with its identifier and the trip of the moment, and is open then |
| SafetyRuns.ClearedExactly | software/ros_pkgs/mr_mission/mr_mission/safety.py:82-106 | exactly a new start closes the open alarm as handled, and exactly a cancel or the all-clear for it as cancelled by the user |
| SafetyRuns.LostCarries | software/ros_pkgs/mr_mission/mr_mission/safety.py:143-148 | a lost-marker alarm carries the new identifier and the trip of the moment, and is open then |
| SafetyRuns.LostExactly | software/ros_pkgs/mr_mission/mr_mission/safety.py:117-131 | a lost-marker alarm is raised at exactly those looks at the clock with no alarm open, the trip active, its marker seen before and not dealt with, and no message seeing it for the whole alarm time |
| SafetyRuns.AcquiredExactly | software/ros_pkgs/mr_mission/mr_mission/safety.py:61-88 | the acquired note is set exactly if the marker was seen in the current trip and not dealt with since |
| SafetyRecovery.RecoveredExactly | software/ros_pkgs/mr_mission/mr_mission/safety.py:68-80 | an alarm is closed by recovery at exactly those looks at the clock with it open, the marker message not stale, and a message since the alarm, at least the recovery time old, from which on every message saw the marker without a gap |
| SafetyRecovery.SteadyMeans | software/ros_pkgs/mr_mission/mr_mission/safety.py:68-80 | what such a run of messages is, message by message |
| SafetyMonitor.Alarms.OnMarker | software/ros_pkgs/mr_mission/mr_mission/safety.py:68-80 | the object changes and acts as SafetySpec.React says for a marker message |
| SafetyMonitor.Alarms.OnTimer | software/ros_pkgs/mr_mission/mr_mission/safety.py:117-131 | the object raises and closes alarms as SafetySpec.Tick does |
| SafetyMonitor.Alarms.OnAck | software/ros_pkgs/mr_mission/mr_mission/safety.py:108-115 | the object orders the stop for a negative answer as SafetySpec.React does |
| SafetyMonitor.Alarms.OnCalm | software/ros_pkgs/mr_mission/mr_mission/safety.py:100-106 | the object closes the alarm named by the user as SafetySpec.React does |
| Outbox.DrainedIsOnce | software/ros_pkgs/mr_care_telemetry/mr_care_telemetry/agent.py:553-578 | for every pattern of lost requests, lost answers, refusals and retries the drained queue has let each request go in its turn and leaves the database as if each that some attempt wrote had been applied once, in the order of the puts; the answered are among them |
| Outbox.DrainIsRun | software/ros_pkgs/mr_care_telemetry/mr_care_telemetry/agent.py:553-570 | one drain is a run of attempts at the head |
| Outbox.WriteTwice | software/ros_pkgs/mr_care_telemetry/mr_care_telemetry/agent.py:558-570 | repeating a request changes nothing |
| Outbox.WriteMeans | software/ros_pkgs/mr_care_telemetry/mr_care_telemetry/agent.py:558-570 | what put, patch and delete do to every field of every record |
| Outbox.Drain | software/ros_pkgs/mr_care_telemetry/mr_care_telemetry/agent.py:553-570 | sending in batches of twenty is sending one head after the other until one is lost |
| Outbox.Queue.Insert | software/ros_pkgs/mr_care_telemetry/mr_care_telemetry/outbox.py:60-70 | a put appends with a fresh id and drops the oldest beyond the limit |
| Outbox.Queue.Done | software/ros_pkgs/mr_care_telemetry/mr_care_telemetry/outbox.py:78-80 | the request with the id leaves, and none other |
| Outbox.Queue.Failed | software/ros_pkgs/mr_care_telemetry/mr_care_telemetry/outbox.py:82-84 | the request with the id counts an attempt, and none other changes |
| SosLog.PatchOnlyAfterPut | software/ros_pkgs/mr_care_telemetry/mr_care_telemetry/agent.py:229-320 | in every run a node is patched only after it was put and not dropped since; the nodes put and not dropped are those of the open alarms whose request was seen |
| SosRestart.SweptNodesAreOpen | software/ros_pkgs/mr_care_telemetry/mr_care_telemetry/agent.py:524-551 | after the sweep, whatever the run before left in queue and database, a node whose alarm is not open is gone or its drop is queued behind all other writes to it |
| SosRestart.SweepFrees | software/ros_pkgs/mr_care_telemetry/mr_care_telemetry/agent.py:540-551 | the sweep drops exactly the nodes the agent does not know |
| SosRestart.WrittenIsWrite | software/ros_pkgs/mr_care_telemetry/mr_care_telemetry/agent.py:247-250 | which nodes exist after a request is what the record database makes of it |
| SosAcks.AnsweredOnce | software/ros_pkgs/mr_care_telemetry/mr_care_telemetry/agent.py:399-410 | an alarm is recorded as answered at most once between opening and closing |
| SosEvents.AnswersExactly | software/ros_pkgs/mr_care_telemetry/mr_care_telemetry/agent.py:253-280 | for every history exactly which messages record a success and which a failure: a success by redeeming a promised answer while the last answer is positive, alone or ahead of the clear event |
| SosEvents.SuccessFollows | software/ros_pkgs/mr_care_telemetry/mr_care_telemetry/agent.py:277-279 | after a positive answer with no success recorded, the first look at the clock from the promised time on, or the clearing if earlier, queues exactly one success, unless a negative answer comes before |
| SosEvents.AckPatchExactly | software/ros_pkgs/mr_care_telemetry/mr_care_telemetry/agent.py:268-271 | an answer patches the node exactly when it is not the one shown |
| SosEvents.LocationExactly | software/ros_pkgs/mr_care_telemetry/mr_care_telemetry/agent.py:282-304 | a location is written exactly if the alarm is open and was requested, the source ranks, no earlier one ranked higher, and fewer than three were written |
| SosEvents.OpenExactly | software/ros_pkgs/mr_care_telemetry/mr_care_telemetry/agent.py:229-266 | an alarm is open exactly from a request or answer for it, unless remembered as closed, until cleared |
| SosEvents.ClosedExactly | software/ros_pkgs/mr_care_telemetry/mr_care_telemetry/agent.py:306-318 | the alarms remembered as closed are the last 64 with a clear event |
| SosEvents.PutExactly | software/ros_pkgs/mr_care_telemetry/mr_care_telemetry/agent.py:229-250 | a node is put, behind its event, by exactly the requests for alarms neither open nor remembered as closed |
| SosEvents.ClearExactly | software/ros_pkgs/mr_care_telemetry/mr_care_telemetry/agent.py:306-320 | a clear event is queued by exactly the clears of alarms not remembered as closed and the sweeps that find one unknown |
| SosAgent.TelemetryAgent.OnSosRequest | software/ros_pkgs/mr_care_telemetry/mr_care_telemetry/agent.py:229-251 | the object opens the entry and queues event and node as SosLog.OnRequest says |
| SosAgent.TelemetryAgent.OnSosAck | software/ros_pkgs/mr_care_telemetry/mr_care_telemetry/agent.py:253-280 | the object notes the answer and queues patch and failure event as SosLog.OnAck says, orphans included |
| SosAgent.TelemetryAgent.OnSosLocation | software/ros_pkgs/mr_care_telemetry/mr_care_telemetry/agent.py:282-304 | the object keeps the best location and queues at most three patches as SosLog.OnLocation says |
| SosAgent.TelemetryAgent.OnSosClear | software/ros_pkgs/mr_care_telemetry/mr_care_telemetry/agent.py:306-320 | the object closes the entry, queues a late success, the event and the drop as SosLog.OnClear says, and remembers 64 ids |
| SosAgent.TelemetryAgent.SweepStaleSos | software/ros_pkgs/mr_care_telemetry/mr_care_telemetry/agent.py:541-551 | the loop over the keys closes exactly the unknown ones, as SosLog.OnSweep says |
| PushIds.NextIsLater | software/ros_pkgs/mr_care_telemetry/mr_care_telemetry/model.py:130-147 | two keys in a row are in string order exactly if time went on or the chance part was not at its end |
| PushIds.KeysSortByTime | software/ros_pkgs/mr_care_telemetry/mr_care_telemetry/model.py:121-147 | for times that do not go back keys are strictly increasing as strings unless the chance part of one millisecond runs out |
| PushIds.SuccMeans | software/ros_pkgs/mr_care_telemetry/mr_care_telemetry/model.py:132-138 | the carry is plus one on a base-64 number |
| PushIds.AlphabetSorted | software/ros_pkgs/mr_care_telemetry/mr_care_telemetry/model.py:14 | the alphabet is in code order |
| PushIds.Generator.Increment | software/ros_pkgs/mr_care_telemetry/mr_care_telemetry/model.py:133-138 | the carry loop in place is plus one with wrap |
| PushIds.Generator.Make | software/ros_pkgs/mr_care_telemetry/mr_care_telemetry/model.py:130-147 | one call: which chance part it uses and which key it gives |

## Left out

- HAL, registers, DMA, FreeRTOS and CubeMX code: priority preemption, atomic critical sections and whole-struct mailboxes are assumed, and the receiver stays armed.
- The IMU, odometry, kinematics and marker geometry: `cmd_vel_callback` is given the wheel speeds or the fact that they are not finite.
- IEEE rounding: gains, measurements and duties are reals; the conversion of a measured speed to an integer for status is not modelled.
- ROS wiring, HTTP, OAuth, SQLite, push messages and launch files: the ordered table, the service and the database are the values and steps the modules define.
- StaticPool.Pool.Free: pointers into the middle of a payload that happen to look like a block are excluded, as the source documents its ownership check to be partial.
- StaticPool.Pool.LiveBlockIsLive: excludes the same pointers.
- StaticPool.Pool.PayloadSize: excludes the same pointers.
- StaticPool.Pool.Realloc: excludes the same pointers.
- StaticPool.Pool.constructor: pools of 2^31 bytes or more are excluded, and the layout is that of the 32-bit target (8-byte headers, in-use mark in the top bit of the size).
- MotorSafety: fault flags are a set, not a bit mask; diagnostic counters of the ring and the parser are unbounded.
- ControlRuns.DrivingMeansFreshCommand: commits are less than 2^32 - 200 ms apart.
- IoTask.Io.Poll: nothing interrupts the poll in this form; all interleavings are those of MotorPath. Its limits of 64 bytes and 4 lines are parameters.
- IoTask.Io.Accept: the mailbox of the control task exists, so posting does not fail.
- MotorPath: a send failure is a fault raised by the IO task at any time, and the bytes of replies are not sent; at most 2^32 - 2 receive faults come between two synchronisations.
- CmdVel.CheckStampExact: stamps and clocks are unbounded integers, without 64-bit overflow of their difference.
- That an `err` reply means the command was not applied: the code does not promise it, as a timed-out command may still be applied.
- That the state cancelled means following is already off: the success of an older disable can confirm a stop; what holds is CallQueue.LastWordExactly.
- That a failed acknowledgement is recorded at most once: only the success is.
- MissionSpec: the tracking state shown to the app, the log lines and the battery.
- MissionNode.Dispatcher.Pump: readiness and answers of the service do not change while one callback runs, and one reading of the clock serves the whole callback.
- LinkWatch and SafetySpec: log lines, the display helpers `down_for` and `lost_for`, and the fixed severity of a request.
- Outbox.DrainedIsOnce: no request is dropped for a full queue, and a lost request does not arrive later than the next attempt; direct writes (status, diagnostics, meta, pruning) go to other paths and are not modelled.
- SosRestart.SweptNodesAreOpen: publishing of locations is switched on, a drop is never refused, and the read before the sweep is not refused for good; alarm ids are already in their wire form (`sos_wire_id`, `safe_key`).
- SosLog: texts, locations and severities of events; whether an update fits the debounce time is the input `dueAt`.
- PushIds.Generator.Make: times are not negative, and the lock around the call is not modelled.
- The agent link's reconnection back-off, the place catalogue, trip events of the telemetry agent and `topic_tree`: they would add only easy members.
