# Verified model of the VLAI L1 robot runtime

This project models the decision code between the devices and the operator: the bounded diagnostic
motion and its guards, the serial and telemetry protocols, the command lease, the start and stop
protocols, and the resolution of robot descriptions. Time is in whole nanoseconds (`nat` or `int`),
angles, speeds and torques are `real`, floats on the wire are 32-bit patterns, and whatever comes from
a device, a clock, the operating system or an operator is an input or an action of the environment.

Code that updates an object is a class or a loop here as well. Each such method is proved equal to a
function of its inputs and the old state, and what the code is for is proved about that function, over
whole runs. Code that only computes is a function. The protocols between processes are transition
systems in which every process may crash and every check may fail at any moment.

| file | what it models |
|---|---|
| `Common` | options, fixed widths, float finiteness |
| `Bytes`, `Crc`, `Burst`, `Generator`, `FrameDecoder` | CRC16/MODBUS (MODBUS over Serial Line Specification and Implementation Guide V1.02, section 6.2.2), the bursts it detects, the polynomial it divides by, and the resynchronising frame decoder |
| `Quintic`, `Gluing`, `Segment`, `Sweep` | the blend polynomial, gluing pieces of a trajectory, one leg, a whole sweep |
| `AutoSpec`, `Trajectory`, `Rehearsal` | the diagnostic specification, its native and its Python forms, the offline rehearsal of a wrist sweep |
| `PairedSweep`, `SettlingGate`, `ControlLoop`, `LoopGuard`, `PairedProtocol`, `LateSweep` | the paired session, its settling window, the loop that composes them with the guard, when the guard ends it, the offline verifier of its report, a session it rejects |
| `Persistence`, `AutoGuard`, `JointSafety` | persistence timers and the two monitors built on them |
| `ApproachHistory` | approach directions with hysteresis |
| `LogBuffer` | the bounded diagnostic ring |
| `MotorFeedback`, `Measurement`, `Wire`, `Encoder`, `FeedbackSession`, `EndToEnd` | the telemetry pipeline |
| `CommandSession` | the command lease |
| `StartGate`, `Supervisor` | the bimanual start and the automatic owner |
| `Subtree`, `Mimic` | subtree selection and mimic joints |

## Where the code does less than one might expect

Four properties that one might expect do not hold. For each there is an input that shows it, and the exact
condition under which the property does hold:

- The reserve that an acknowledgement must leave covers nominal ends, not late steps: a step that comes
  late can still run into the session cap (`PairedSweep.LateStepStillHitsCap`). With steps at most `gap`
  apart, the work that was started is never cut off if and only if the acknowledgement comes `gap` earlier
  than the reserve for that work asks (`PairedSweep.AcknowledgedNeverCutOffExactly`), and a session that is
  settling or sweeping is never cut off if and only if its latest nominal end is `gap` before the cap
  (`PairedSweep.NeverCutOffExactly`).
- The offline verifier tolerates one state timeout at the end of a sweep, while the control loop's
  deadline check lets two ticks lie one period further apart. `LateSweep.CompletedLoopIsRejected` is a
  session that keeps every check of the loop, completes, and is rejected. A completed loop is accepted if
  and only if no tick found its sweep overdue by more than the tolerance
  (`ControlLoop.CompletedLoopAcceptedExactly`).
- The bimanual release is not atomic: the left side may move alone while the parent stops
  (`StartGate.OneSideMayMoveAlone`). Exactly one side is sent START if and only if the parent breaks off
  between the two writes: the right process is gone, an exception comes, or the parent dies
  (`StartGate.ReleaseSplitsExactly`).
- A lifecycle process may exit in order and leave a link up (`StartGate.ALinkMayStayUp`). It does so if and
  only if that link was configured and the second one was not, or stopping the sidecar raised before the
  links were taken down, or the shutdown of that link failed (`StartGate.LinkLeftUpExactly`). Such an exit
  always reports an error (`StartGate.CleanExitLeavesNothing`).

## Model

| member | source | states |
|---|---|---|
| `Crc.Crc16Modbus` | src/vlai_l1_runtime/hkvl_serial.py:26-32 | the nested loops compute the checksum whose algebra the lemmas below prove |
| `Crc.ShiftLinear` | src/vlai_l1_runtime/hkvl_serial.py:26-32 | one shift of the register is linear over XOR |
| `Crc.ShiftsInjective` | src/vlai_l1_runtime/hkvl_serial.py:26-32 | any number of shifts takes only the zero register to zero |
| `Crc.PairSeparates` | src/vlai_l1_runtime/hkvl_serial.py:26-32 | two byte pairs lead one register to the same register only if they are the same pair |
| `Crc.CheckedIffResidueZero` | src/vlai_l1_runtime/hkvl_serial.py:65-67 | the decoder's comparison succeeds exactly when the CRC over the whole frame is zero |
| `Crc.AppendedCrcHasZeroResidue` | src/vlai_l1_runtime/hkvl_serial.py:26-32 | a message followed by its own CRC, low byte first, has CRC zero, and followed by any other two bytes has not |
| `Burst.TwoByteBurstDetected` | src/vlai_l1_runtime/hkvl_serial.py:65-67 | any change of one or two consecutive bytes of a good frame, CRC field included, makes the comparison fail |
| `Burst.AbsorbIsShifts` | src/vlai_l1_runtime/hkvl_serial.py:26-32 | absorbing a message is XORing it, as one number low byte first, into the register and shifting it all the way through |
| `Burst.BurstDetected` | src/vlai_l1_runtime/hkvl_serial.py:65-67 | any change confined to sixteen consecutive bits of a good frame in the order of transmission, at any bit and so across up to three bytes, CRC field included, makes the comparison fail |
| `Generator.SameChecksumExactly` | src/vlai_l1_runtime/hkvl_serial.py:26-32 | two messages of one length have the same checksum if and only if their difference, as bits in the order of transmission, is a carry-less multiple of x^16 + x^15 + x^2 + 1 |
| `Generator.CheckedExactly` | src/vlai_l1_runtime/hkvl_serial.py:65-67 | a frame passes the comparison if and only if, with its first sixteen bits inverted, it is such a multiple |
| `Generator.CheckValue` | src/vlai_l1_runtime/hkvl_serial.py:26-32 | the check value of the standard: the digits 1 to 9 have checksum 0x4B37 |
| `FrameDecoder.Decoder.FindHeader` | src/vlai_l1_runtime/hkvl_serial.py:54 | the first header position, or none |
| `FrameDecoder.Decoder.Feed` | src/vlai_l1_runtime/hkvl_serial.py:50-78 | one call adds exactly what parsing the kept bytes followed by the chunk yields, and keeps less than a frame |
| `FrameDecoder.ParseSplit` | src/vlai_l1_runtime/hkvl_serial.py:50-78 | parsing a stream is parsing a prefix and then the rest behind what the prefix left over |
| `FrameDecoder.ChunkingIsInvisible` | src/vlai_l1_runtime/hkvl_serial.py:50-78 | samples in order, counters and leftover do not depend on how a stream is split into chunks |
| `FrameDecoder.EveryByteAccounted` | src/vlai_l1_runtime/hkvl_serial.py:50-78 | bytes fed are 28 per sample or non-finite frame plus the discarded and the kept ones, and the kept ones end the stream |
| `FrameDecoder.RestWaits` | src/vlai_l1_runtime/hkvl_serial.py:53-64 | what is kept waits for more bytes and is shorter than a frame |
| `FrameDecoder.SamplesAreStreamFrames` | src/vlai_l1_runtime/hkvl_serial.py:63-77 | every sample is a checked frame found in the stream; the frames do not overlap and come in stream order |
| `FrameDecoder.CleanStreamRoundTrip` | src/vlai_l1_runtime/hkvl_serial.py:50-78 | a stream of good frames yields exactly their samples |
| `FrameDecoder.ValuesRoundTrip` | src/vlai_l1_runtime/hkvl_serial.py:50-78 | six finite float32 patterns, framed as header, little-endian values and CRC and fed in any reads, come out as exactly one sample with these values |
| `Common.FiniteByExponent` | src/vlai_l1_runtime/hkvl_serial.py:72-76 | a float32 pattern is not finite exactly with the highest exponent |
| `FrameDecoder.SamplesSpellTheirFrames` | src/vlai_l1_runtime/hkvl_serial.py:72-77 | conversely every sample of every stream is six finite values and the very frame that carries them, the k-th value being what bytes 2 + 4k to 5 + 4k spell |
| `FrameDecoder.CorruptFrameIsRejected` | src/vlai_l1_runtime/hkvl_serial.py:65-71 | a frame hit by a burst within sixteen consecutive bits is not taken as a sample at its place |
| `Quintic.BlendSpeed` | src/vlai_l1_runtime/trajectory.py:151-154 | the blend rises monotonically and never faster than 15/8 per unit |
| `Quintic.BlendSpeedIsSharp` | src/vlai_l1_runtime/trajectory.py:49 | no smaller constant than 15/8 bounds the slope |
| `Quintic.BlendAcceleration` | src/vlai_l1_runtime/trajectory.py:51-54 | the rate of the blend changes by at most 10*sqrt(3)/3 per unit |
| `Quintic.BlendTangent` | src/vlai_l1_runtime/trajectory.py:154-155 | the velocity polynomial is the derivative of the position polynomial |
| `Quintic.RateTangent` | src/vlai_l1_runtime/trajectory.py:155-158 | the acceleration polynomial is the derivative of the velocity polynomial |
| `Gluing.GlueLipschitz` | native/xair_sidecar/automatic_core.hpp:49-52 | pieces that are Lipschitz and meet at their ends form a globally Lipschitz function |
| `Gluing.GlueTangent` | native/xair_sidecar/automatic_core.hpp:49-52 | pieces with a derivative that meet in value and derivative form a function with that derivative |
| `Sweep.AccelerationFitsMeans` | src/vlai_l1_runtime/trajectory.py:51-54 | the acceleration test, squared to avoid the root, is the test with the root |
| `Sweep.SpeedLimit` | native/xair_sidecar/automatic_core.hpp:105-109 | between any two times the offset moves by at most the speed budget times the time, across legs, holds and cycles |
| `Sweep.AccelerationLimit` | src/vlai_l1_runtime/trajectory.py:131-162 | between any two times the analytic velocity changes by at most the acceleration budget times the time |
| `Sweep.VelocityIsDerivative` | src/vlai_l1_runtime/trajectory.py:147-158 | the analytic velocity is the derivative of the offset at every time |
| `Sweep.AccelerationIsDerivative` | src/vlai_l1_runtime/trajectory.py:147-158 | the analytic acceleration is the derivative of the velocity at every time, and itself changes within the jerk of the steepest leg |
| `Sweep.EveryPathHasJerk` | src/vlai_l1_runtime/trajectory.py:147-158 | every path has a jerk budget, 60 times its largest step over the cubed transition time |
| `Sweep.EnvelopeOfPoints` | native/xair_sidecar/automatic_core.hpp:232-235 | the offset never leaves the range of the waypoints |
| `Trajectory.ValidMotorPath` | native/xair_sidecar/automatic_core.hpp:60-130 | what `validate` accepts gives every motor a closed path within excursion, speed and acceleration budgets |
| `Trajectory.TargetFollowsPath` | native/xair_sidecar/automatic_core.hpp:43-58 | the native target, single motor or waypoints, is the reference plus each motor's path at that time |
| `Trajectory.TargetHolds` | native/xair_sidecar/automatic_core.hpp:45-48 | holding, before the first leg and after the end the target is the reference; negative times are refused |
| `Trajectory.PythonAgreesWithNative` | src/vlai_l1_runtime/automatic_trajectory.py:17-48 | the Python offsets and the native target are the same function of time, errors included |
| `Trajectory.WristFollowsPath` | src/vlai_l1_runtime/trajectory.py:131-162 | the nanosecond form, with its divisions and remainders, is the same path with its velocity and acceleration |
| `Trajectory.WristBudgets` | src/vlai_l1_runtime/trajectory.py:48-54 | between any two nanosecond instants of an accepted wrist sweep both budgets hold, the reported velocity is the derivative of the position and the reported acceleration that of the velocity |
| `Trajectory.TargetSpeedLimit` | native/xair_sidecar/automatic_core.hpp:43-58 | no motor's target moves faster than the reference speed budget between any two times |
| `Trajectory.AcceptedReferenceIsExact` | native/xair_sidecar/automatic_core.hpp:220-238 | a reference is accepted exactly when every target at every time stays within the motor bounds |
| `Trajectory.AcceptedInside` | native/xair_sidecar/automatic_core.hpp:239-260 | from an accepted reference every target is within bounds and excursion, so those checks of the guard cannot fire |
| `Rehearsal.Rehearsal.Advance` | src/vlai_l1_runtime/trajectory.py:232-276 | one step is the step function: clock, transport, identity, bounds, freshness, start, tracking, end, in this order |
| `Rehearsal.Rehearsal.TrackErrors` | src/vlai_l1_runtime/trajectory.py:264-270 | the timers of all features advance up to the first that has run out |
| `Rehearsal.Rehearsal.ReadClock` | src/vlai_l1_runtime/trajectory.py:221-230 | a clock that runs back and feedback that is too old are refused |
| `Rehearsal.Rehearsal.PollNow` | src/vlai_l1_runtime/trajectory.py:278-284 | a poll reads the clock only while the rehearsal goes on |
| `Rehearsal.Rehearsal.StopNow` | src/vlai_l1_runtime/trajectory.py:286-289 | a stop releases an open rehearsal |
| `Rehearsal.Rehearsal.AcknowledgeRelease` | src/vlai_l1_runtime/trajectory.py:291-299 | only a release is acknowledged; it closes only if disabled and released |
| `Rehearsal.PointsFollowPlan` | src/vlai_l1_runtime/trajectory.py:232-289 | in every rehearsal the issued points are those of the plan at the time since its start, at increasing times |
| `Rehearsal.PointsNeverJump` | src/vlai_l1_runtime/trajectory.py:262-274 | between any two issued points no joint moves faster than the speed budget |
| `Rehearsal.PointsStayInBounds` | src/vlai_l1_runtime/trajectory.py:103-109 | the bounds checked at the reference and at both ends of the excursion hold at every issued point |
| `Rehearsal.ReleaseIsFinal` | src/vlai_l1_runtime/trajectory.py:232-234 | once released, no point is issued any more and the reason stays |
| `Rehearsal.TrackingIsExact` | src/vlai_l1_runtime/trajectory.py:262-274 | on samples that pass every instantaneous check the rehearsal goes on exactly as long as the plan lasts and no feature is off it without interruption for the persistence time; at the end it completes exactly when all features are within tolerance |
| `Rehearsal.StepExactly` | src/vlai_l1_runtime/trajectory.py:232-276 | in plain terms, exactly which steps release the rehearsal before tracking, and for which reason; any other is only ended by tracking or at the end of the plan |
| `Rehearsal.OffExactly` | src/vlai_l1_runtime/trajectory.py:264-270 | when a feature counts as off the plan: further than its tolerance from the position planned for its own time |
| `Rehearsal.PlanMovesOneJoint` | src/vlai_l1_runtime/trajectory.py:103-130 | the plan moves joint 7 alone |
| `Rehearsal.OthersExactly` | src/vlai_l1_runtime/trajectory.py:278-299 | exactly what a poll, a stop and an acknowledgement do |
| `PairedSweep.Sweep.Advance` | native/xair_sidecar/automatic_core.hpp:153-172 | one control step is the step function of the phase machine, with every fault in its order |
| `PairedSweep.AcknowledgedEndsBeforeCap` | native/xair_sidecar/automatic_core.hpp:153-172 | after an accepted acknowledgement the latest nominal end of what remains is before the session cap |
| `PairedSweep.NeverCutOffExactly` | native/xair_sidecar/automatic_core.hpp:156-171 | for a settling or sweeping session, all continuations with steps at most a given gap apart: none is cut off by the session cap if and only if the latest nominal end leaves one such gap before the cap |
| `PairedSweep.AcknowledgedNeverCutOffExactly` | native/xair_sidecar/automatic_core.hpp:157-162 | at an accepted acknowledgement: the settling and sweep it starts are never cut off if and only if it comes one gap more than their length before the cap, which the reserve does not ask for |
| `PairedSweep.LateStepStillHitsCap` | native/xair_sidecar/automatic_core.hpp:156-159 | without that margin a late step ends an acknowledged session at the cap |
| `PairedSweep.BudgetIsExact` | native/xair_sidecar/automatic_core.hpp:147-152 | the budget the constructor demands is exactly what some session can complete on |
| `PairedProtocol.RunIsLogged` | native/xair_sidecar/automatic_core.hpp:153-182 | the phases a session announces are those of the protocol in order, at increasing times, each long enough |
| `PairedProtocol.CompletedReportAccepted` | src/vlai_l1_runtime/paired_protocol.py:7-69 | the report of a completed session is accepted if and only if no sweep closed later than the tolerance; nothing else can reject it |
| `PairedProtocol.AcceptedExactlyOnTime` | src/vlai_l1_runtime/paired_protocol.py:7-69 | in terms of the steps taken: it is accepted if and only if no step found its sweep overdue by more than the tolerance |
| `PairedProtocol.TimelySessionAccepted` | src/vlai_l1_runtime/paired_protocol.py:7-69 | steps no further apart than the tolerance suffice, with and without manual handling |
| `PairedProtocol.PlainReportExactly` | src/vlai_l1_runtime/paired_protocol.py:7-69 | whoever made it, a report without handling is accepted if and only if its six phases follow in order from zero, its three sweeps fit, both acknowledgements are there, it ended before the cap, and it is completed once, disabled, at that time |
| `PairedProtocol.HandledReportExactly` | src/vlai_l1_runtime/paired_protocol.py:7-69 | with handling eight phases, and both settling phases fit as well |
| `PairedProtocol.SpansArePhases` | src/vlai_l1_runtime/paired_protocol.py:66-69 | the spans of an accepted report are its phases, each up to the next |
| `SettlingGate.Gate.Reset` | native/xair_sidecar/automatic_core.hpp:192 | the window and the clock are forgotten |
| `SettlingGate.Gate.Update` | native/xair_sidecar/automatic_core.hpp:193-211 | one update is the step function of the window; a clock that does not advance is refused |
| `SettlingGate.SettledIsSound` | native/xair_sidecar/automatic_core.hpp:193-211 | "settled" names a contiguous suffix of updates at least settle_ns long in which all motors were slow and no two positions of one differ by more than the span |
| `SettlingGate.StillnessIsReported` | native/xair_sidecar/automatic_core.hpp:193-211 | wherever a window opens, after a reset, a fast update or an exceeded span, stillness since then is reported exactly when it has lasted settle_ns |
| `SettlingGate.SettledExactly` | native/xair_sidecar/automatic_core.hpp:193-211 | after any updates the gate reports settled if and only if some window has been still until now for settle_ns |
| `SettlingGate.StillExactly` | native/xair_sidecar/automatic_core.hpp:193-211 | still means: every velocity within the settling speed in both directions, and no two positions of a motor further apart than the span |
| `ControlLoop.Control` | native/xair_sidecar/automatic_main.cpp:198-235 | the loop over the sweep, gate and guard objects, with deadline, device failures and stop, is the run of the step function |
| `ControlLoop.Advance` | native/xair_sidecar/automatic_main.cpp:199-215 | the first half of a pass: deadline, reading, settling gate, phase machine, announced phase |
| `ControlLoop.SendTarget` | native/xair_sidecar/automatic_main.cpp:219-223 | the second half: the target, the guard, the command |
| `ControlLoop.Pass` | native/xair_sidecar/automatic_main.cpp:198-235 | one pass of the loop body is one step of the function |
| `ControlLoop.PrematureSettlingUnreachable` | native/xair_sidecar/automatic_main.cpp:203-211 | composed as in the loop, the "premature settling completion" fault cannot occur |
| `ControlLoop.CommandNeverJumps` | native/xair_sidecar/automatic_main.cpp:199-223 | between any two commands of a session no target moves faster than the reference speed budget, across phases and restarts |
| `ControlLoop.CommandsAreSafe` | native/xair_sidecar/automatic_main.cpp:219-223 | every command is within bounds and excursion, and the reference itself while an operator handles the arm |
| `ControlLoop.GuardAcceptsTargets` | native/xair_sidecar/automatic_main.cpp:219-221 | at every tick of every run that reaches the guard, all its clauses about the target hold and its context is valid exactly if its clock advances; only feedback can fail it |
| `LoopGuard.GuardStopsExactly` | native/xair_sidecar/automatic_main.cpp:219-223 | at every tick of every run that reaches the guard, it ends the loop if and only if its clock has not advanced or some motor is stale, out of range, too strong, too hot, not enabled or over the speed limit of the phase, has been off its command for the tracking timeout, or has been fast under handling for the persistence time |
| `LoopGuard.SpeedEndsTheLoop` | native/xair_sidecar/automatic_core.hpp:255-262 | in both waiting phases, settling or not, a speed between the two limits ends the loop exactly when it has lasted; above the automatic limit in a sweep, or not enabled in any phase, it ends at once |
| `ControlLoop.LoopRunsSweep` | native/xair_sidecar/automatic_main.cpp:199-213 | the loop is a run of the phase machine on its elapsed times, one step a tick, on the deadline schedule |
| `ControlLoop.CompletedLoopAccepted` | src/vlai_l1_runtime/paired_protocol.py:7-69 | a loop that completes with ticks within the tolerance leaves a report the offline verifier accepts |
| `ControlLoop.CompletedLoopAcceptedExactly` | src/vlai_l1_runtime/paired_protocol.py:7-69 | a completed loop leaves a report the offline verifier accepts if and only if no tick found its sweep overdue by more than the tolerance; otherwise it is rejected for a sweep |
| `LateSweep.CompletedLoopIsRejected` | native/xair_sidecar/automatic_main.cpp:199-213 | a validated specification and a session in which every tick keeps the deadline check, nothing faults and the loop completes, and whose report the verifier rejects at the state timeout |
| `Persistence.ExpiredIffPersisted` | native/xair_sidecar/automatic_core.hpp:258-268 | a timer that remembers one start time expires exactly when an unbroken block of violations that long ends |
| `AutoGuard.Monitor.SetReference` | native/xair_sidecar/automatic_core.hpp:220-238 | a reference is accepted once, exactly when the bounds allow its whole trajectory; a refusal is final |
| `AutoGuard.Monitor.CheckMotor` | native/xair_sidecar/automatic_core.hpp:244-269 | the checks and timers of one motor, in their order, with the state they leave when one fails |
| `AutoGuard.Monitor.CheckSpeed` | native/xair_sidecar/automatic_core.hpp:255-262 | the speed checks of one motor and the timer of its sustained speed under handling |
| `AutoGuard.Monitor.CheckTracking` | native/xair_sidecar/automatic_core.hpp:265-268 | the tracking check of one motor and its timer |
| `AutoGuard.Monitor.Check` | native/xair_sidecar/automatic_core.hpp:239-270 | a call is the step function over all motors, with its verdict and its state after a failure |
| `AutoGuard.CheckedPasses` | native/xair_sidecar/automatic_core.hpp:239-270 | a call passes exactly when the context and every motor pass against the guard before it, and then advances every clock; a call that does not latches the failure |
| `AutoGuard.CheckPassesExactly` | native/xair_sidecar/automatic_core.hpp:239-270 | in plain terms, exactly when one call passes: stamps, positions, commands, torque, temperatures, end stops, speed limit, status and both timers of every motor |
| `AutoGuard.FaultsExactlyWhenPersistent` | native/xair_sidecar/automatic_core.hpp:239-270 | on runs that pass every instantaneous check, each call passes exactly when no motor has yet completed a block of tracking, or under handling speed, violations |
| `AutoGuard.FailureIsFinal` | native/xair_sidecar/automatic_core.hpp:239-277 | after the first call that fails, every later verdict is false and every further check fails, whatever it is shown |
| `JointSafety.Monitor.Reset` | native/xair_sidecar/runtime_safety.cpp:196-202 | every timer, warning and clock is forgotten |
| `JointSafety.Monitor.Observe` | native/xair_sidecar/runtime_safety.cpp:138-194 | one observation, in stop and in warn mode, with the first event ending the pass |
| `JointSafety.StopsExactlyWhenPersistent` | native/xair_sidecar/runtime_safety.cpp:138-194 | in stop mode, on runs within bounds, an event comes exactly when some joint has not followed for the timeout |
| `JointSafety.FirstEventNamesTheJoint` | native/xair_sidecar/runtime_safety.cpp:177-186 | that event is fatal, comes at the first sample that completes a block, and names the first such joint |
| `JointSafety.ObservedExactly` | native/xair_sidecar/runtime_safety.cpp:138-194 | every observation in either mode: a clock that does not advance is fatal; otherwise the event names the first joint that is out of bounds, leader before follower, or late, and only a late joint in warn mode is not fatal |
| `JointSafety.SilenceIsExact` | native/xair_sidecar/runtime_safety.cpp:138-194 | in stop mode, whatever the run, silence says exactly that the clock advanced, both arms stayed in bounds and no joint was lost for the timeout |
| `JointSafety.WarnsOncePerBlock` | native/xair_sidecar/runtime_safety.cpp:165-190 | between two warnings for a joint it was seen to follow |
| `JointSafety.WarnsExactlyWhenPersistent` | native/xair_sidecar/runtime_safety.cpp:165-190 | a joint that errs alone is warned of exactly at the sample that completes a block as long as the timeout |
| `ApproachHistory.History.Update` | src/vlai_l1_runtime/residual_model.py:48-77 | one update of all joints; refused input latches |
| `ApproachHistory.UpdateExactly` | src/vlai_l1_runtime/residual_model.py:48-77 | in plain terms, which input latches, when all joints start anew, and how each turns otherwise |
| `ApproachHistory.RisingTurnsAtFirstRetreat` | src/vlai_l1_runtime/residual_model.py:66-75 | a rising direction turns exactly at the first retreat of a threshold from the running maximum; smaller oscillation never turns it |
| `ApproachHistory.FallingTurnsAtFirstRise` | src/vlai_l1_runtime/residual_model.py:66-75 | a falling direction turns exactly at the first rise of a threshold from the running minimum |
| `ApproachHistory.ResolvesAtFirstExcursion` | src/vlai_l1_runtime/residual_model.py:66-75 | an unresolved direction resolves exactly at the first excursion of a threshold |
| `ApproachHistory.NegationMirrorsRuns` | src/vlai_l1_runtime/residual_model.py:48-77 | negating all positions negates all directions, across gaps and refusals |
| `ApproachHistory.JointsAreIndependent` | src/vlai_l1_runtime/residual_model.py:62-75 | between gaps each joint is tracked on its own |
| `LogBuffer.FeedbackLogBuffer.Chronological` | native/xair_sidecar/feedback_log_buffer.cpp:21-24 | positions of the ring read the last min(n, capacity) accepted records in order |
| `LogBuffer.FeedbackLogBuffer.Latest` | native/xair_sidecar/feedback_log_buffer.cpp:25-27 | the last record is the newest accepted one |
| `LogBuffer.FeedbackLogBuffer.Start` | native/xair_sidecar/feedback_log_buffer.cpp:35-39 | a capture starts once, at a nonzero time |
| `LogBuffer.FeedbackLogBuffer.Refusal` | native/xair_sidecar/feedback_log_buffer.cpp:42-63 | a record is refused exactly when it is from no listed motor, badly stamped, or does not follow the last one |
| `LogBuffer.FeedbackLogBuffer.FindId` | native/xair_sidecar/feedback_log_buffer.cpp:43 | the position of the id, or none |
| `LogBuffer.FeedbackLogBuffer.Ingest` | native/xair_sidecar/feedback_log_buffer.cpp:40-74 | a record is appended to the unbounded history exactly when it is acceptable; no subtraction wraps |
| `LogBuffer.FeedbackLogBuffer.Check` | native/xair_sidecar/feedback_log_buffer.cpp:75-86 | the watchdog passes exactly when its clock did not run back and no motor was silent for longer than the timeout; no subtraction wraps |
| `LogBuffer.OverwriteOldest` | native/xair_sidecar/feedback_log_buffer.cpp:70-71 | overwriting the oldest slot and stepping past it drops the first and appends the new record |
| `LogBuffer.RetainedStep` | native/xair_sidecar/feedback_log_buffer.cpp:66-73 | the store step, filling or overwriting, shows the tail of the longer history |
| `LogBuffer.RetainedIncreases` | native/xair_sidecar/feedback_log_buffer.cpp:50-53 | what the ring shows strictly increases in monotonic time |
| `LogBuffer.ConsistentExactly` | native/xair_sidecar/feedback_log_buffer.cpp:43-63 | what a capture holds in plain terms: listed motors, nothing dropped, prompt kernel stamps, and from record to record an advancing monotonic clock that the real one follows within the timeout |
| `LogBuffer.WelcomeExactly` | native/xair_sidecar/feedback_log_buffer.cpp:40-63 | a started capture welcomes a record exactly if all it holds is still so afterwards |
| `LogBuffer.LastHeardBounds` | native/xair_sidecar/feedback_log_buffer.cpp:82-85 | the newest time of a motor, evicted or not, lies between the start and the newest record |
| `MotorFeedback.FieldsCoverPayload` | native/xair_sidecar/motor_feedback.cpp:42-45 | the three decoded integers are bytes one to five of the payload, bit for bit |
| `Measurement.DecodedMeasures` | native/xair_sidecar/motor_feedback.cpp:32-54 | a decoded frame: the three scales applied to the 16-, 12- and 12-bit fields of the payload, the status in the high half of byte 0, the temperatures in bytes 6 and 7, the flag for a saturated field |
| `MotorFeedback.Accumulator.IngestFrame` | native/xair_sidecar/motor_feedback.cpp:88-113 | one frame: unrelated, stored for its motor, or a latched fault |
| `MotorFeedback.Accumulator.TakeBatch` | native/xair_sidecar/motor_feedback.cpp:115-157 | a batch exactly when every motor has a new, recent frame and no two stamps differ by more than the skew |
| `MotorFeedback.Accumulator.Invalidate` | native/xair_sidecar/motor_feedback.cpp:82-86 | the fault is latched |
| `MotorFeedback.SkewFromExtremes` | native/xair_sidecar/motor_feedback.cpp:138-141 | comparing the newest with the oldest stamp is comparing all pairs |
| `Wire.DecodeOfSerialize` | src/vlai_l1_runtime/feedback_wire.py:66-103 | every packet the receiver admits survives its own serialization |
| `Wire.SerializeOfDecode` | src/vlai_l1_runtime/feedback_wire.py:66-103 | only the bytes a packet serializes to decode to it, so decoding is injective |
| `Wire.DecodeIsExact` | src/vlai_l1_runtime/feedback_wire.py:38-103 | the decoder accepts exactly the serializations of valid packets |
| `Wire.AcceptedLayout` | src/vlai_l1_runtime/feedback_wire.py:38-103 | field by field, where everything lies in the 328 bytes of an accepted packet |
| `Wire.DecodableExactly` | src/vlai_l1_runtime/feedback_wire.py:19-103 | byte by byte, which strings are accepted and which refused: the fixed header, no all-zero identity, a sequence number and an assembly time, and acceptable motors |
| `Wire.MotorsAcceptableExactly` | src/vlai_l1_runtime/feedback_wire.py:74-86 | the motors admitted are those whose bytes show an eleven-bit identifier no other motor has, known flags, a reception time up to the assembly, and finite values |
| `Wire.MotorAcceptableExactly` | src/vlai_l1_runtime/feedback_wire.py:31-35 | with the endpoint flag set exactly if a field of the payload is all zeros or all ones |
| `Encoder.Writer.Integer` | native/xair_sidecar/feedback_wire.cpp:17-19 | appends the little-endian bytes of the value at the moving offset |
| `Encoder.Writer.Append` | native/xair_sidecar/feedback_wire.cpp:20-22 | appends the bytes as they are |
| `Encoder.Writer.Real` | native/xair_sidecar/feedback_wire.cpp:23-27 | appends the bit pattern of a float |
| `Encoder.WriteHeader` | native/xair_sidecar/feedback_wire.cpp:46-53 | writes the 72 header bytes of the packet |
| `Encoder.WriteMotor` | native/xair_sidecar/feedback_wire.cpp:69-77 | writes the 32 bytes of one motor |
| `Encoder.WriteMotors` | native/xair_sidecar/feedback_wire.cpp:54-78 | writes all motors, stopping at the first whose decoded values are not those of its frame |
| `Encoder.EncodeFeedbackPacket` | native/xair_sidecar/feedback_wire.cpp:37-81 | the serialized packet of a consistent batch, and a refusal of every other input |
| `Encoder.EncodedIsAccepted` | src/vlai_l1_runtime/feedback_wire.py:66-103 | every encoded packet is 328 bytes, is accepted by the decoder, and returns identity, times, payloads, flags and float bits |
| `EndToEnd.EncodableExactly` | native/xair_sidecar/feedback_wire.cpp:37-66 | in plain terms, exactly which batches the encoder accepts: the specifications, and for every motor that its values are what its frame measures, as float numbers |
| `FeedbackSession.Session.Invalidate` | src/vlai_l1_runtime/feedback_wire.py:193-197 | the fault is latched and the last packet forgotten |
| `FeedbackSession.Session.CheckDeadlineNow` | src/vlai_l1_runtime/feedback_wire.py:203-224 | the deadline check is the step function, with the clock kept on failure |
| `FeedbackSession.Session.CheckMotors` | src/vlai_l1_runtime/feedback_wire.py:244-267 | the loop over the motors accepts exactly when each is as the policy demands and the stamps are within the skew |
| `FeedbackSession.Session.AcceptPacket` | src/vlai_l1_runtime/feedback_wire.py:226-273 | accepting a packet is the step function, with every per-motor check |
| `FeedbackSession.ReceptionsAreSound` | src/vlai_l1_runtime/feedback_wire.py:203-273 | under replay, reordering and corruption, each accepted packet was delivered as serialized, is admitted in time, and is newer in sequence, assembly and every motor than all before |
| `FeedbackSession.FaultIsFinal` | src/vlai_l1_runtime/feedback_wire.py:193-201 | nothing is accepted after the first fault |
| `FeedbackSession.PollIsExact` | src/vlai_l1_runtime/feedback_wire.py:203-224 | a poll of a healthy session passes exactly when it is on time |
| `FeedbackSession.PollPassesExactly` | src/vlai_l1_runtime/feedback_wire.py:203-224 | the same in plain terms |
| `FeedbackSession.SlavesDiffer` | src/vlai_l1_runtime/feedback_wire.py:112-190 | under a valid policy the motors of an accepted packet have eight different identifiers and slaves |
| `FeedbackSession.DeliveryIsExact` | src/vlai_l1_runtime/feedback_wire.py:226-273 | a delivery is accepted exactly when it is on time, admitted by the policy and newer than the last; otherwise the session faults |
| `FeedbackSession.AdmittedExactly` | src/vlai_l1_runtime/feedback_wire.py:226-273 | in plain terms, the packets the policy admits: source, times, and for every motor identifier, slave, a listed status, no saturated field, a recent receive time, all within the skew |
| `FeedbackSession.AcceptedAreTrustworthy` | src/vlai_l1_runtime/feedback_wire.py:226-273 | under any delivery every packet ever accepted is such a packet |
| `EndToEnd.BatchesProgress` | native/xair_sidecar/motor_feedback.cpp:88-157 | the batches of any accumulator run are numbered from one, consistent, recent, within the skew, and newer in every motor each time |
| `EndToEnd.BatchesMeasure` | native/xair_sidecar/motor_feedback.cpp:32-54 | in every batch of every run the values of a motor are its own three scales of the fields of the frame beside them, with its status, temperatures and saturation flag |
| `EndToEnd.FrameFaultsExactly` | native/xair_sidecar/motor_feedback.cpp:88-113 | after any healthy run, exactly which frames make the accumulator fault |
| `EndToEnd.PollEmitsExactly` | native/xair_sidecar/motor_feedback.cpp:115-157 | after any healthy run, exactly when a poll faults and when a batch comes, which then carries the newest frame of every motor |
| `EndToEnd.GoodIsEncodable` | native/xair_sidecar/feedback_wire.cpp:40-66 | every batch of an accumulator passes the encoder's checks |
| `EndToEnd.TimelyDeliveryIsAccepted` | src/vlai_l1_runtime/feedback_wire.py:203-273 | any in-order selection of the batches of any accumulator run, encoded and delivered on time to a matching session, is accepted whole |
| `EndToEnd.DeliveredMeasures` | src/vlai_l1_runtime/feedback_wire.py:203-273 | and in every packet accepted that way the values of a motor are its own scales of the payload beside them |
| `CommandSession.Session.ConnectReadOnly` | src/vlai_l1_runtime/session.py:111-116 | only a disconnected session connects, at a valid time |
| `CommandSession.Session.Disconnect` | src/vlai_l1_runtime/session.py:118-120 | every lease field is cleared and the session disconnected |
| `CommandSession.Session.AcquireCommand` | src/vlai_l1_runtime/session.py:122-151 | a lease is granted exactly on a ready policy, a normalized name and a recent measured pose, and starts its timers |
| `CommandSession.Session.Beat` | src/vlai_l1_runtime/session.py:153-161 | a heartbeat is the step function, timeouts first |
| `CommandSession.Session.Examine` | src/vlai_l1_runtime/session.py:180-203 | the checks of a command and its feedback within a lease |
| `CommandSession.Session.HoldsPose` | src/vlai_l1_runtime/contracts.py:245-259 | the first command holds the measured pose on every feature |
| `CommandSession.Session.AcceptCommand` | src/vlai_l1_runtime/session.py:163-211 | accepting a command is the step function, failing closed on the first violation |
| `CommandSession.Session.CheckTimeoutsNow` | src/vlai_l1_runtime/session.py:220-241 | the timeouts are the step function, in their order |
| `CommandSession.Session.ReleaseLease` | src/vlai_l1_runtime/session.py:213-218 | a release ends the lease, with or without a proper reason |
| `CommandSession.Session.RequireActiveLease` | src/vlai_l1_runtime/session.py:264-269 | without a lease it raises; on another lease it fails closed |
| `CommandSession.Session.FailClosed` | src/vlai_l1_runtime/session.py:276-279 | read-only, every lease field cleared, the reason kept |
| `CommandSession.Session.ClearCommandState` | src/vlai_l1_runtime/session.py:281-289 | every lease field is cleared, mode and reason kept |
| `CommandSession.HeartbeatIsExact` | src/vlai_l1_runtime/session.py:153-161 | a heartbeat is accepted exactly when the lease is right and both timeouts are kept |
| `CommandSession.AcceptIsExact` | src/vlai_l1_runtime/session.py:163-211 | a command is accepted exactly when it may come next in its lease; otherwise nothing of the lease is left |
| `CommandSession.RunsAreOrderly` | src/vlai_l1_runtime/session.py:60-289 | in every run each lease is used within its timeouts and in order, and a session without a lease has forgotten it |
| `CommandSession.CommandsAreContiguous` | src/vlai_l1_runtime/session.py:180-211 | the commands of a lease are numbered 0, 1, 2, ... with increasing times and fresher feedback, within the inactivity timeout, the first holding a pose measured after acquisition |
| `CommandSession.CommandAcceptedExactly` | src/vlai_l1_runtime/session.py:163-211 | in plain terms, exactly when a command is accepted under a held lease; otherwise the lease is lost |
| `CommandSession.HeartbeatAcceptedExactly` | src/vlai_l1_runtime/session.py:153-161 | the same for a heartbeat |
| `CommandSession.RaisingFailsClosed` | src/vlai_l1_runtime/session.py:264-289 | a heartbeat or command that raises while a lease is held leaves a read-only session with all lease fields cleared |
| `CommandSession.RaisingElsewhereIsHarmless` | src/vlai_l1_runtime/session.py:264-274 | raising without a lease changes nothing |
| `CommandSession.ConnectionIsExact` | src/vlai_l1_runtime/session.py:111-120 | a disconnected session connects to read-only, and only it; disconnecting clears everything but the reason |
| `CommandSession.AcquireIsExact` | src/vlai_l1_runtime/session.py:122-151 | in plain terms, exactly when a lease is granted, and the tenure it begins |
| `CommandSession.TimeoutIsExact` | src/vlai_l1_runtime/session.py:220-241 | exactly when a check reports a timeout, for which reason, and that the lease is then lost |
| `CommandSession.CheckWithoutLease` | src/vlai_l1_runtime/session.py:220-228 | without a lease a check changes nothing and reports none |
| `CommandSession.ReleaseEnds` | src/vlai_l1_runtime/session.py:213-218 | a release under the held lease, with a proper reason or without, leaves read-only with every lease field cleared and the reason recorded; under another lease the lease is lost as well |
| `CommandSession.OnlyTheseEnd` | src/vlai_l1_runtime/session.py:111-289 | nothing but a release, a disconnection, a reported timeout or a refused heartbeat or command ends a lease |
| `CommandSession.LeaseEndsForGood` | src/vlai_l1_runtime/session.py:111-289 | over all runs, after an event that ends the lease no heartbeat and no command is accepted until the next granted acquisition |
| `CommandSession.FirstCommandHoldsPose` | src/vlai_l1_runtime/contracts.py:245-259 | the first command of a lease is, on every feature, within the tolerance of a pose measured after the acquisition |
| `CommandSession.NormalizedExactly` | src/vlai_l1_runtime/session.py:127-128 | a text is proper exactly if it is not empty and stripping white space changes nothing |
| `CommandSession.BlankExactly` | src/vlai_l1_runtime/session.py:127-128 | the ASCII characters that stripping takes for white space |
| `StartGate.MotionNeedsBothPreflights` | src/vlai_l1_runtime/collection/managed.py:640-707 | if either side ever spawned its motion-capable sidecar, both sides had completed every motor probe and reported it, and that side had been sent START |
| `StartGate.ReleaseIsOrdered` | src/vlai_l1_runtime/collection/managed.py:673-689 | START goes to the left side first, and to both before the release returns |
| `StartGate.ReleaseSplitsExactly` | src/vlai_l1_runtime/collection/managed.py:673-689 | START reaches exactly one side, the left one, if and only if the parent stands between the two writes or broke off there, because the right process was gone, an exception came or the parent died; the right side then never moves |
| `StartGate.NothingIsReleasedLater` | src/vlai_l1_runtime/collection/managed.py:181-183 | once the parent stops or is gone, no START is written any more |
| `StartGate.UnreleasedNeverMoves` | src/vlai_l1_runtime/teleoperation/lifecycle.py:421-463 | a side that was not sent START by then never spawns its sidecar |
| `StartGate.LinkLeftUpExactly` | src/vlai_l1_runtime/teleoperation/lifecycle.py:382-400 | over all runs: an orderly exit leaves a link up if and only if that link was configured and the second was not, or stopping the sidecar raised, or the shutdown of that link failed |
| `StartGate.SidecarLeftExactly` | src/vlai_l1_runtime/teleoperation/lifecycle.py:382-391 | over all runs: a sidecar outlives an orderly exit if and only if stopping it raised and it has not ended since |
| `StartGate.CleanExitLeavesNothing` | src/vlai_l1_runtime/teleoperation/lifecycle.py:382-400 | an exit without an error leaves no sidecar and no link up |
| `StartGate.OneSideMayMoveAlone` | src/vlai_l1_runtime/collection/managed.py:680-687 | the release is not atomic: a run in which only the left side moves |
| `StartGate.ALinkMayStayUp` | src/vlai_l1_runtime/teleoperation/lifecycle.py:728-755 | two runs that exit in order with one link up: the second link could not be configured, or the first could not be shut down |
| `StartGate.BothMayRun` | src/vlai_l1_runtime/collection/managed.py:640-689 | undisturbed, both sides come to move and the release returns |
| `StartGate.BothMayStop` | src/vlai_l1_runtime/collection/managed.py:266-290 | and then, told to stop, both leave without an error, with no sidecar and no link left |
| `StartGate.EveryProcessCanLeave` | src/vlai_l1_runtime/teleoperation/lifecycle.py:216-400 | from every state of every run a living lifecycle process that is asked to stop can leave in order, without a new error |
| `StartGate.ParentCanFinish` | src/vlai_l1_runtime/collection/managed.py:266-290 | from every state of every run a living parent can finish, with every process gone |
| `StartGate.StopsBoth` | src/vlai_l1_runtime/collection/managed.py:266-274 | stopping, it first closes the input of every process it has launched and asks it to stop |
| `StartGate.OrphansLeave` | src/vlai_l1_runtime/teleoperation/lifecycle.py:421-463 | when the parent dies, a process at the gate without a START leaves with an error and never moves |
| `StartGate.StatusIsExact` | src/vlai_l1_runtime/teleoperation/lifecycle.py:382-400 | over all runs, exactly which moves make the exit of a process one with an error |
| `StartGate.CleanExitHasAReason` | src/vlai_l1_runtime/teleoperation/lifecycle.py:382-400 | an exit without an error was asked for, or followed a sidecar |
| `Supervisor.ConfirmDisable` | native/xair_sidecar/automatic_main.cpp:243-255 | the wait ends with the first feedback round in which all eight motors report disabled after the command, if there is one |
| `Supervisor.AtMostOneOwner` | src/vlai_l1_runtime/teleoperation/automatic.py:342-504 | at most one native motor owner is alive, over all failures, crashes and restarts |
| `Supervisor.OwnersAreSequential` | src/vlai_l1_runtime/teleoperation/automatic.py:540-583 | an owner starts only when all earlier ones are gone, the disable-only one only after the motion owner was waited for, the motion owner once a run |
| `Supervisor.LinkGoesDownLast` | src/vlai_l1_runtime/teleoperation/automatic.py:597-606 | the supervisor lowers the link only when no owner is alive |
| `Supervisor.OrphanMayLower` | native/xair_sidecar/automatic_main.cpp:123-134 | an owner without supervisor takes the link down once its own disable attempt is over |
| `Supervisor.PassedMeansDisabled` | src/vlai_l1_runtime/teleoperation/automatic.py:540-577 | "passed" implies that the owner saw a disabled reply of all eight motors, newer than its disable command |
| `Supervisor.FinishedRunsAreAccountedFor` | src/vlai_l1_runtime/teleoperation/automatic.py:578-596 | a finished run either verified the disable or tried a disable-only owner and failed |
| `Supervisor.PassedExactly` | src/vlai_l1_runtime/teleoperation/automatic.py:540-577 | over all runs, a run comes to be passed exactly when the motion owner it supervised exited with 0 and printed the disable, nothing was wrong since its launch, and the evidence is complete |
| `Supervisor.DisableVerifiedExactly` | src/vlai_l1_runtime/teleoperation/automatic.py:542-596 | the disable counts as verified exactly if the judged owner printed so; otherwise a motion owner is followed by a disable-only one |
| `Supervisor.RunMayPass` | src/vlai_l1_runtime/teleoperation/automatic.py:540-606 | an undisturbed run passes and lowers the link |
| `Supervisor.RunMayCleanUp` | src/vlai_l1_runtime/teleoperation/automatic.py:578-606 | a run whose owner had to be killed disables the motors with a second one, and fails |
| `Supervisor.RunCanEnd` | src/vlai_l1_runtime/teleoperation/automatic.py:342-606 | from every state of every run a living supervisor can come to its end, with no owner alive and its link down |
| `Supervisor.StartNeedsTheLock` | src/vlai_l1_runtime/teleoperation/automatic.py:506-512 | a run begins exactly when no supervisor runs and no owner of any earlier run is alive |
| `Supervisor.KillNeedsWarning` | src/vlai_l1_runtime/teleoperation/automatic.py:431-441 | an owner is killed exactly if something was wrong since its launch and it was told to stop after that |
| `Supervisor.FailedOwnerStays` | native/xair_sidecar/automatic_main.cpp:236-275 | past its loop an owner that failed never exits with 0 |
| `Supervisor.OwnerMayNotEnable` | native/xair_sidecar/automatic_main.cpp:236-275 | a motion owner that never enabled says so, disables nothing and fails |
| `Supervisor.FailuresAreNoted` | native/xair_sidecar/automatic_main.cpp:236-275 | a loop that did not end well, a disable given up, trouble afterwards, and what is not |
| `Supervisor.DisableIsConfirmedOnce` | native/xair_sidecar/automatic_main.cpp:243-255 | only eight fresh disabled replies to its first disable command end the wait of an owner |
| `Subtree.ReadJoints` | src/vlai_l1_runtime/gravity.py:118-131 | the joint table is built exactly for well-formed descriptions, and lists their edges both ways |
| `Subtree.Walker.Visit` | src/vlai_l1_runtime/gravity.py:134-142 | a visit terminates and appends the link and all its descendants once, parents first; below a selectable branch it never raises |
| `Subtree.Walker.VisitChild` | src/vlai_l1_runtime/gravity.py:141-142 | one round of the loop over the children extends the listing by one child's descendants |
| `Subtree.SelectSubtree` | src/vlai_l1_runtime/gravity.py:116-144 | a branch is refused exactly when it is no child of the root or the root lies below it; otherwise the list is exactly its descendants, parents first |
| `Subtree.CycleMeetsRoot` | src/vlai_l1_runtime/gravity.py:118-142 | with one parent a link, a cycle below the branch passes through the root |
| `Subtree.Traverse` | src/vlai_l1_runtime/gravity.py:298-325 | the traversal never misses a parent's transform, and collects for each link exactly the moving joints above it |
| `Mimic.Resolver.Resolve` | src/vlai_l1_runtime/gravity.py:237-261 | memoised resolution refuses exactly the chains without an end, and otherwise stores the right value and derivative |
| `Mimic.Coordinates` | src/vlai_l1_runtime/gravity.py:228-265 | all coordinates resolve exactly when the positions are those of the independent joints and every chain has an end |
| `Mimic.UnresolvableChains` | src/vlai_l1_runtime/gravity.py:240-251 | a chain has no end exactly when it meets a missing or mismatched target or runs into a cycle |
| `Mimic.DerivativeIsExact` | src/vlai_l1_runtime/gravity.py:252-256 | each coordinate is affine in at most one independent position, with the returned derivative as its exact slope |
| `Mimic.EntriesSolveTheEquations` | src/vlai_l1_runtime/gravity.py:243-256 | the stored coordinates solve the equations of the description: fixed joints at zero, independent ones at their positions, followers at scale times their target plus offset |
| `Mimic.ResolvableExactly` | src/vlai_l1_runtime/gravity.py:240-251 | a chain has an end exactly if a path leads from joint to followed joint of the same kind up to one that follows none |
| `Mimic.GivenExactly` | src/vlai_l1_runtime/gravity.py:228-229 | positions are demanded of exactly the moving joints that follow none |

## Left out

- Floating point: trajectories are over the reals and float32 values on the wire are bit patterns; rounding and the non-finite checks of computed values are not modelled. A motor's scale is any function from raw integers to finite float32 patterns.
- Decimal printing of phase times: the offline verifier's microsecond tolerance is kept, the rounding it reconciles is not.
- Seconds in a policy that are not whole nanoseconds, which the specification file rounds.
- Texts of error messages; a fault keeps only its kind.
- Wrong Python types: a value that is no envelope, sample or seven-joint reading is a missing or malformed one.
- Unicode white space in a lease name or a release reason: only the white space among the ASCII characters is recognised.
- Trajectory.ValidMotorPath: leaves out what `validate` demands of names, ids, gains, the buffer capacity, the health poll and the priority, because no motion depends on it.
- JointSafety.StopsExactlyWhenPersistent: holds in stop mode only, because in warn mode a first warning ends the pass before the later joints are examined.
- FeedbackSession.Session.CheckDeadlineNow: a time that is no integer is not representable.
- StartGate.LinkLeftUpExactly: a link counts as up if this process brought it up and has not taken it down since; what others do to it is not modelled.
- The reaction of a sidecar whose lifecycle process was killed alone: the group signal reaches it, and its end is an action of the environment.
- Supervisor.LinkGoesDownLast: a native owner whose supervisor has died takes the link down itself, after its own disable attempt; that case is named in the statement.
- The lifecycle lock of the start gate, the acknowledgement and finish files, camera, network and `/proc` checks: failures of them are actions of the environment.
- `hold` and `sweep` modes of the native owner: their loops are the paired loop without phases.
- The geometry, masses and potential energy of the gravity model, the residual studies and the wrench solvers: numerical libraries with no exact counterpart here.
- Datasets, cameras, operator panels, configuration files and the command line.
